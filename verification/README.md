# A model of a Tcl analyser and language server

The program parses Tcl scripts, builds a semantic index of them and serves references and definitions over the
Language Server Protocol. This project models its analyser and the parts of its server that have a contract of
their own, and proves what holds of them for every input, run and interleaving.

| file | what it models |
|---|---|
| `Names.dfy`, `NameLaws.dfy` | qualified names: splitting, joining, printing and reading back |
| `SourceFiles.dfy` | byte offsets and line/column positions |
| `Database.dfy` | row tables with dense ids, and their secondary indexes |
| `Syntax.dfy`, `Tokens.dfy`, `Parser.dfy`, `ParserLaws.dfy` | words, calls and scripts; token arrays; the parser and what holds of its output |
| `BestFit.dfy` | choosing among several definitions of a proc |
| `TokenLaws.dfy`, `Commands.dfy` | token arrays from the front, and the commands the parser knows, said of the words themselves |
| `Resolution.dfy`, `Lookup.dfy`, `ResolutionLaws.dfy` | what the two index passes compute, with namespaces as paths, and what a name resolves to |
| `NamespaceLaws.dfy` | which namespaces exist after a pass and after a build |
| `Trie.dfy`, `SemanticIndex.dfy`, `IndexPasses.dfy` | the namespace table, the index object and the two passes that change it in place |
| `Agreement.dfy` | the parser's textual namespace against the indexer's namespace row |
| `Stamps.dfy` | when the parser's namespaces are absolute, as requests assert |
| `EndToEnd.dfy` | from tokens to the index |
| `PassAgreement.dfy` | the first pass against the second |
| `ArgumentLaws.dfy` | the arity of a proc against its argument list |
| `Cursor.dfy`, `CursorLaws.dfy`, `CursorPlaces.dfy`, `ParsedCursors.dfy` | finding the word at a position |
| `Layout.dfy` | places in document order, from tokens laid out in a text |
| `Framing.dfy` | message framing over a chunked byte stream |
| `Queries.dfy`, `Protocol.dfy`, `Server.dfy` | requests, the reparse protocol and the server object |
| `Serving.dfy` | the shared index and the answers to requests over whole runs |
| `Strand.dfy` | the order of reparses and which document is committed last |
| `ClientTexts.dfy` | the texts, versions and states the server keeps against those the client sent |
| `Counterexamples.dfy` | inputs on which the program does something else than its names and comments suggest |

Objects that the program changes in place are classes (`RefRecord`, `Index`, `ScanContext`, `ParseContext`,
`SourceFile`, `Reader`, `Writer`, `LanguageServer`). Each of their methods is proved to do exactly what a function on
values says, and the laws are proved of those functions. Exceptions are results: an absolute namespace of one
character makes `substr(2)` throw, and both passes, `Build`, the requests and the reparse job carry that through. So
is the one case of undefined behaviour that a document can bring about: reading the first element of an argument that
has none ends the scan, and the reparse with it.

What comes from outside is a parameter. `Tcl_ParseCommand` is a function from a document's address and text to the
commands found in it; a command is the tree that its token array lists, and the arrays the parser reads are those
trees flattened. `TclFindElement` is a function from a text to its elements. A stream is a list of chunks. The
strand is a queue with at most one running job, whose snapshot and commit are separate steps. In `Tokens`, a piece of
text carries the commands found in it, and `Index.paths` in `SemanticIndex` is a ghost record of the path of each
namespace id.

## Where the program and its intent differ

The model follows the code. Where an expected property fails, the laws give the exact condition under which it
holds, and `Counterexamples` shows an input on which it does not.

- `namespace eval` takes its name as a relative namespace even when it starts with `::`, and then indexes the body
  below a child without a name, while the parser stamps the calls in it with the absolute name. A qualified name
  inside a namespace is joined to the current path without a separator. `EvalAgreement`, `ProcAgreement` and
  `ParserAndIndexerAgree` say exactly when both sides mean the same namespace.
- Odd runs of colons split differently in `SplitPath` and `SplitName` (`PartsMatchComponents`), and some namespaces
  print alike (`PrintThenSplit`, `FindPrinted`).
- A name with three leading colons and no later separator throws, so a document that uses one where a pass reads it
  is never committed again until its text changes. An argument list with an empty element, unless it is the only one,
  makes the scan read past an empty vector (`BuildsExactly`, `EmptyArgumentExactly`, `QuietIsCurrent`;
  `NameStopsReparse`, `EmptyArgumentStopsReparse`).
- Inside a proc with such a name, given as plain text, calls are stamped with a namespace that is not absolute, and a
  request at one fails an assertion (`StampsAreAbsolute`, `NoRequestAborts`; `StampAborts`).
- A position inside a word of several components, before the last one, is taken to be before the word; text after a
  command substitution is reported under the inner call (`SearchIsFlatScan`, `LeafFound`; `SplitWordIsMissed`,
  `TextAfterScriptHasWrongCall`).
- No proc is ever marked variadic, and an argument list of one element is not counted (`ArityIsDeclared`;
  `TrailingArgsIsNotVariadic`, `SingleArgumentIsNotCounted`).
- The scan walks a proc's body in the namespace of the proc command, the index pass in that of the proc's name
  (`PassesAgreeExactly`; `BodyIsWalkedApart`), and each pass skips words that the other walks (`MetUnlessSkipped`).
- Requests create namespaces in the shared index while they look up procs, which changes the answers to some later
  requests (`QueriesCommute`, `AnswersComeFromLastCommit`; `RequestChangesAnswer`). `Protocol` states the index
  invariant up to such namespaces, and `SharedIndexExactly` says when there are none.
- Opening a document again keeps the text stored before (`StoredIsSent`, `ReopenedIsDeaf`; `ReopenLosesText`).

## Model

| member | source | states |
|---|---|---|
| `Names.SplitPath` | src/analyzer/script.cpp:20-38 | the scanning loop yields the greedy left-to-right components of the path |
| `NameLaws.JoinComponents` | src/analyzer/script.cpp:20-38 | joining the components of any path with `::` gives the path back |
| `NameLaws.ComponentsOfJoin` | src/analyzer/script.cpp:20-38 | splitting a joined non-empty list gives the list back if and only if no component holds a separator and only the last may end in a colon |
| `NameLaws.ComponentsAroundSep` | src/analyzer/script.cpp:24-33 | a separator not preceded by a colon always ends a component |
| `NameLaws.ComponentsAtEvenRun` | src/analyzer/script.cpp:24-33 | a run of colons of even length splits at its end, so the two sides split independently |
| `NameLaws.PathOfSplitName` | src/analyzer/script.cpp:66-73 | `Path` of a split name is the name, for every non-empty name |
| `NameLaws.AbsPathAtGlobal` | src/analyzer/script.cpp:46-59 | seen from the global namespace every name becomes itself with a leading separator, unless it has one already |
| `NameLaws.TailOfSplitName` | src/analyzer/script.cpp:136-165 | the tail of a split name never holds a separator and never starts with a colon after one |
| `NameLaws.NamespacePartsThrowExactly` | src/analyzer/script.cpp:85-102 | the parts of a split name throw exactly for names that start with three colons and have no later separator |
| `NameLaws.PartsMatchComponents` | src/analyzer/script.cpp:104-114 | `SplitName(s).Parts()` is `SplitPath` of s without its leading `::` if and only if the tail is non-empty and the colons before it pair up |
| `NameLaws.PrintComponents` | src/analyzer/index.cpp:203-213 | going down by the components of a text prints as the old name, `::` and that text, whatever the text is |
| `NameLaws.PrintThenSplit` | src/analyzer/index.cpp:256-262 | splitting a printed namespace path gives the path back if and only if the path is recoverable |
| `NameLaws.WellFormedPathsAreRecoverable` | src/analyzer/index.cpp:256-262 | paths of non-empty components without separators or outer colons are recoverable |
| `SourceFiles.SourceFile.constructor` | src/analyzer/source_location.cpp:23-31 | a new file knows all newline offsets of its contents followed by its length |
| `SourceFiles.SourceFile.ParseNewLines` | src/analyzer/source_location.cpp:33-48 | the scan collects exactly the newline offsets, in order, and the length |
| `SourceFiles.SourceFile.OffsetToLineByte` | src/analyzer/source_location.cpp:73-88 | the line is the number of newlines before the offset, counted from 0, and the column the distance from just after the last of them, or from the beginning |
| `SourceFiles.PositionIsCounted` | src/analyzer/source_location.cpp:73-88 | the position of every offset is that count and distance, said of the bytes themselves |
| `SourceFiles.PositionsAdvance` | src/analyzer/source_location.cpp:73-88 | offset 0 is line 0 and column 0; after a newline the next line begins, after any other byte the next column |
| `SourceFiles.SourceFile.MakeSourceLocation` | src/analyzer/source_location.cpp:112-123 | a location carries the position of its offset |
| `SourceFiles.LineStartPlusColumn` | src/analyzer/source_location.cpp:79-82 | line start plus column is the offset, and the line start is column 0 of the same line |
| `SourceFiles.PositionOrder` | src/analyzer/source_location.cpp:53-59 | offsets and positions are ordered alike, and different offsets have different positions |
| `Database.RefRecord.constructor` | src/analyzer/db.cpp:59-65 | a new table is empty and its indexes agree with it |
| `Database.RefRecord.Insert` | src/analyzer/db.cpp:67-75 | a row is appended under the next dense id, and the indexes keep agreeing with full scans |
| `Database.RefRecord.Update` | src/analyzer/db.cpp:77-93 | a change through a fetched row keeps ids, names and both indexes |
| `Database.RefRecord.UpdateKeys` | src/analyzer/db.cpp:105-108 | the range of the row's name gains its id at the end, no other range changes, and an index by name of any rows becomes one of those rows and this one |
| `Database.RefRecord.AddReference` | src/analyzer/db.cpp:120-127 | a reference is appended and the index by id keeps agreeing with the list |
| `Database.IdsNamedListsMatchingRows` | src/analyzer/db.cpp:98-109 | the ids under a name are exactly those of the rows that bear it, increasing |
| `Database.PositionsListReferences` | src/analyzer/db.cpp:111-130 | the positions under an id are exactly those of its references, increasing, and reading the list there gives the filter of the list |
| `Database.RefRecord.Gather` | src/lsp/handlers.cpp:219-236 | gathering through the index gives the full filter of the reference list, or the definitions in it |
| `BestFit.BestFitProcToCall` | src/analyzer/index.cpp:578-624 | the loop picks the first exact definition after position 0, else the last accepting one after position 0, else position 0, and nothing from nothing |
| `BestFit.BestFitClosedForm` | src/analyzer/index.cpp:589-621 | that closed form is what the loop's running choice amounts to, for every list and count |
| `BestFit.TakesExactly` | src/analyzer/index.cpp:598-613 | a proc takes the counts from its required ones up to all its positional ones, or without end, if and only if it is variadic or its counts do not wrap around when added |
| `Resolution.InNamespaceInRange` | src/analyzer/index.cpp:543-563 | the procs selected for a namespace and name are exactly the matching ones, in id order |
| `ResolutionLaws.PrefixesExist` | src/analyzer/index.cpp:227-251 | every prefix of an existing namespace path exists |
| `ResolutionLaws.AddPathAddsPrefixes` | src/analyzer/index.cpp:227-251 | resolving adds exactly the missing prefixes and keeps all ids |
| `ResolutionLaws.AddPathWellFounded` | src/analyzer/index.cpp:238-246 | and keeps the set of paths prefix-closed and free of duplicates |
| `ResolutionLaws.AddPathIdempotent` | src/analyzer/index.cpp:216-254 | resolving a second time adds nothing |
| `ResolutionLaws.LookupPathsGrow` | src/analyzer/index.cpp:535-573 | the namespaces created by a lookup leave the set of paths prefix-closed, with all old ids kept |
| `Lookup.CandidatesAreNearest` | src/analyzer/index.cpp:565-573 | a lookup gives the definitions of the nearest enclosing level that has any, and an absolute name is looked up at one level only |
| `Lookup.CandidatesAreVisible` | src/analyzer/index.cpp:526-576 | every candidate has the tail of the name and lies where the name leads from some enclosing namespace |
| `Lookup.ResolveMeans` | src/analyzer/index.cpp:526-624 | a name resolves to the best fit among exactly the procs held at the nearest level that holds any, in id order, and to nothing when no level does |
| `Lookup.ResolvesOnce` | src/analyzer/index.cpp:526-624 | a name resolves in that way to one definition only |
| `ResolutionLaws.RunCompletes` | src/analyzer/index.cpp:300-337 | a pass completes exactly when it meets no name whose parts throw and, in the scan, no proc with an argument that is an empty list |
| `ResolutionLaws.ScanCollectsDefinitions` | src/analyzer/index.cpp:363-466 | the first pass adds one proc and one definition reference per proc command scanned, in visit order |
| `ResolutionLaws.IndexCollectsUsages` | src/analyzer/index.cpp:627-691 | the second pass leaves the procs alone and adds, in visit order, one usage at the name of each use that resolves, with the id it resolves to among all of them |
| `ResolutionLaws.BuiltIndex` | src/analyzer/index.cpp:693-697 | building completes exactly when no visit ends either pass; its references are the definitions, then the usages resolved against the final procs, so the order of calls and definitions in the script does not matter |
| `ResolutionLaws.BuildsExactly` | src/analyzer/index.cpp:693-697 | building completes exactly when no proc met in either pass and no command met in the second is named with three leading colons and no later separator, and no proc met in the first has an argument that is an empty list |
| `ResolutionLaws.OneDefinitionEach` | src/analyzer/index.cpp:356-360 | the k-th definition reference is that of the k-th proc |
| `ResolutionLaws.BuiltProcsAreDefinedOnce` | src/analyzer/index.cpp:356-360 | after a build every proc id has exactly one definition among its references |
| `NamespaceLaws.RunGrows` | src/analyzer/index.cpp:216-254 | no pass ever drops or renumbers a namespace |
| `NamespaceLaws.EntersCalls` | src/analyzer/index.cpp:370-389 | every call of a completed pass is met in a namespace that exists by then |
| `NamespaceLaws.LookedInExists` | src/analyzer/index.cpp:535-573 | every level a lookup looks in exists afterwards |
| `NamespaceLaws.VisitedPathExists` | src/analyzer/index.cpp:693-697 | every namespace in which a call is met exists after the build |
| `NamespaceLaws.BuiltNamespaces` | src/analyzer/index.cpp:693-697 | after a build exactly the global namespace and the prefixes of the namespaces opened, defined in or looked in exist |
| `Trie.WithChildIsTrie` | src/analyzer/index.cpp:238-246 | linking a new child under a parent keeps the table a trie: links mirrored, parents before children, ids and paths in bijection |
| `Trie.NoChildNoPath` | src/analyzer/index.cpp:229-238 | when no child bears a name, the extended path exists nowhere in the table |
| `Trie.ChildPath` | src/analyzer/index.cpp:247-250 | a child comes after its parent and denotes the parent's path extended by its name |
| `Trie.SiblingsDiffer` | src/analyzer/index.cpp:229-246 | children of one namespace have distinct names |
| `Trie.TriePathsWellFounded` | src/analyzer/index.cpp:126-141 | the paths of a table form a prefix-closed set without duplicates, rooted at the global namespace |
| `SemanticIndex.Index.constructor` | src/analyzer/index.cpp:126-141 | a fresh index holds the global namespace and nothing else |
| `SemanticIndex.Index.FindChild` | src/analyzer/index.cpp:231-236 | the child search finds the extended path exactly when it exists |
| `SemanticIndex.Index.AddChild` | src/analyzer/index.cpp:240-245 | a missing child is added with the next id; procs and references are untouched |
| `SemanticIndex.Index.Descend` | src/analyzer/index.cpp:227-251 | one turn of the loop reaches the extended path, adding it only if missing |
| `SemanticIndex.Index.ResolveNamespace` | src/analyzer/index.cpp:216-254 | the result is the node for base path plus parts; the missing prefixes are added and nothing else changes; a name without parts changes nothing |
| `SemanticIndex.Index.TargetOf` | src/analyzer/index.cpp:535-538 | the namespace looked in is the one the qualified name leads to |
| `SemanticIndex.Index.SelectInNamespace` | src/analyzer/index.cpp:540-563 | filtering the name index by namespace id selects by path, in id order |
| `SemanticIndex.Index.FindProc` | src/analyzer/index.cpp:526-576 | the result depends on procs and the caller's path alone, so namespaces created by lookups are invisible to every later lookup; procs, references and the paths of existing ids are kept |
| `SemanticIndex.Index.AddProcToIndex` | src/analyzer/index.cpp:300-361 | one proc is added in the namespace its name leads to, with one definition reference at its name; nothing is when an argument has no elements or the name no parts |
| `SemanticIndex.Index.CountArguments` | src/analyzer/index.cpp:310-337 | required and optional counts are those of text and list arguments modulo 2^32, no proc is variadic, and the loop fails exactly when an argument is a list without a first element |
| `SemanticIndex.Index.AddCommandReference` | src/analyzer/index.cpp:287-298 | one reference is appended; namespaces and procs stay |
| `SemanticIndex.Index.GetPrintName` | src/analyzer/index.cpp:178-214 | the printed name of a namespace is that of its path |
| `SemanticIndex.Index.GetProcPrintName` | src/analyzer/index.cpp:178-214 | the printed name of a proc is its namespace's path and its name |
| `SemanticIndex.Index.FindNamespace` | src/analyzer/index.cpp:256-285 | a namespace is found exactly when the parts of the name exist as a path, and is the node of that path |
| `SemanticIndex.Index.FindPrinted` | src/analyzer/index.cpp:178-285 | printing a namespace and finding it again gives the same node if and only if its path is recoverable |
| `SemanticIndex.NamedInNamespace` | src/analyzer/index.cpp:533-563 | selecting by namespace id among the rows with a name is selecting by path |
| `SemanticIndex.ParentInTrie` | src/analyzer/index.cpp:565-572 | only the global namespace has no parent, and a parent has a smaller id and the path without its last component |
| `IndexPasses.ScanScript` | src/analyzer/index.cpp:363-466 | the first pass over a script does what its visits do one after the other, up to the one that ends the pass, and restores the stack |
| `IndexPasses.ScanCall` | src/analyzer/index.cpp:370-465 | the same for one command |
| `IndexPasses.ScanEval` | src/analyzer/index.cpp:378-389 | the same for `namespace eval`, whose body is scanned in the namespace it names |
| `IndexPasses.ScanWord` | src/analyzer/index.cpp:152-175 | the same for one word; array indexes are skipped |
| `IndexPasses.IndexScript` | src/analyzer/index.cpp:627-691 | the second pass over a script does what its visits do, up to the one that ends the pass, and restores the stack |
| `IndexPasses.IndexCall` | src/analyzer/index.cpp:633-690 | the same for one command |
| `IndexPasses.IndexBody` | src/analyzer/index.cpp:640-662 | the body of a `namespace eval` or proc is indexed in the namespace its name leads to |
| `IndexPasses.IndexUserCall` | src/analyzer/index.cpp:663-689 | the same for a user command and the words after it |
| `IndexPasses.IndexUse` | src/analyzer/index.cpp:663-675 | a use adds one usage of the definition it resolves to, or nothing |
| `IndexPasses.ResolveCall` | src/analyzer/index.cpp:665-666 | lookup and best fit together give what the name resolves to: the best fit of those held at the nearest level |
| `IndexPasses.IndexWord` | src/analyzer/index.cpp:472-524 | the second pass over a word, array indexes included |
| `IndexPasses.Build` | src/analyzer/index.cpp:693-697 | the whole build: completes exactly when no visit ends a pass, restores the stack, and adds the definitions scanned and the usages resolved against the final procs |
| `EndToEnd.MetInNamespace` | src/analyzer/script.cpp:582-595 | each pass meets a command in the body of a `namespace eval` at the top in the namespace of that name |
| `EndToEnd.ProcIsFiled` | src/analyzer/index.cpp:300-361 | from tokens: a proc in the body of a `namespace eval` is filed in that namespace by the build, with its one definition at its name |
| `EndToEnd.UseIsRecorded` | src/analyzer/index.cpp:663-675 | and a command of that name in the same body, before or after it, is recorded as a usage of a proc of that namespace and name |
| `PassAgreement.VisitedIffMet` | src/analyzer/index.cpp:363-466 | a pass visits a call in a namespace exactly when it meets it so at some place in the script |
| `PassAgreement.MetUnlessSkipped` | src/analyzer/index.cpp:152-175 | of the calls one pass meets, the scan misses exactly those in array indexes, the index pass exactly those in a proc outside its body or in one whose name throws |
| `PassAgreement.BodyNamespaceExactly` | src/analyzer/index.cpp:652-662 | the body of a proc is walked where the proc command is exactly when the name has no namespace part or is absolute and names just that namespace |
| `PassAgreement.PassesAgreeExactly` | src/analyzer/index.cpp:363-466 | both passes meet every call that both meet in the same namespace if and only if every proc with something to scan in its body has such a name |
| `ArgumentLaws.EmptyArgumentExactly` | src/analyzer/script.cpp:380-416 | an argument list makes the scan read a missing element if and only if it has other than one element and one of them is an empty list |
| `ArgumentLaws.ArityIsDeclared` | src/analyzer/index.cpp:310-337 | the arity counted is the one the argument list declares if and only if Tcl takes each of its elements, there is not just one, the last is not a plain `args`, and the counts fit in 32 bits |
| `ArgumentLaws.ParsedArityIsDeclared` | src/analyzer/script.cpp:470-504 | for every proc command that the parser reads with an argument list: exactly when the scan stops at it, and otherwise exactly when its definition has the arity declared |
| `Parser.ParseContext.ParseWord` | src/analyzer/script.cpp:241-365 | wherever the tokens of a tree lie in an array, reading there gives the word of the tree, its name and components in their places, and moves the cursor by one plus the component count |
| `Parser.ParseContext.ParseComponents` | src/analyzer/script.cpp:286-291 | the component loop reads every component once and stops at the end of the token |
| `Parser.ParseContext.NextWord` | src/analyzer/script.cpp:453-468 | the next word of a command is read, or an error word exactly at the end of the array |
| `Parser.ParseContext.ReadWord` | src/analyzer/script.cpp:453-468 | one more word of the command is read in the plain role |
| `Parser.ParseContext.ReadArguments` | src/analyzer/script.cpp:470-504 | one more word is read as an argument list |
| `Parser.ParseContext.ReadBody` | src/analyzer/script.cpp:506-530 | one more word is read as a body, parsed in the current namespace when it is text |
| `Parser.ParseContext.ReadRest` | src/analyzer/script.cpp:444-451 | the remaining words are read up to the end of the array |
| `Parser.ParseContext.ReadProc` | src/analyzer/script.cpp:535-554 | the words of a proc, its body in the namespace of its name; the current namespace is restored |
| `Parser.ParseContext.ReadNamespaceEval` | src/analyzer/script.cpp:582-595 | the words of a `namespace eval`, its body in the namespace it names; the current namespace is restored |
| `Parser.ParseContext.ReadKnown` | src/analyzer/script.cpp:532-607 | the kind is PROC, WHILE, FOR, FOREACH or NAMESPACE_EVAL exactly for its first words and number of words, else USER, and the words are read in their roles |
| `Parser.ParseContext.ParseCommand` | src/analyzer/script.cpp:420-610 | a token array of n words becomes one call of n words in order: its kind by its first words, exactly the text bodies of that kind as scripts, the arguments of a proc as lists, and every other word as read; or nothing when n is 0 |
| `Parser.ParseContext.ParseScript` | src/analyzer/script.cpp:612-647 | a script becomes the calls of its non-empty commands; the current namespace is restored |
| `TokenLaws.FlattenEncodes` | src/analyzer/script.cpp:269-362 | the array of a tree is the one that says, from the front, of each token how many of those after it are its components |
| `Commands.CallOfFits` | src/analyzer/script.cpp:532-607 | every command with words becomes such a call, said of its words without the parser's own tables |
| `Commands.CallFitsOnce` | src/analyzer/script.cpp:532-607 | and only one call is such |
| `Commands.BodiesAreScripts` | src/analyzer/script.cpp:506-530 | the text words that come back as scripts are word 3 of proc, foreach and namespace eval, 2 of while, and 1, 3 and 4 of for |
| `Commands.CallsInOrder` | src/analyzer/script.cpp:612-647 | a script has one call for each command with words, in the same order |
| `Commands.WordOfDecodes` | src/analyzer/script.cpp:269-362 | text, names of variables, index words and components come back each in its place |
| `ParserLaws.ParsedScriptIsSound` | src/analyzer/script.cpp:420-610 | at any depth a parsed call has at least one word, `proc` and `namespace eval` have four, and no word is an error, so no word of a call that the index passes read at a fixed place is missing |
| `ParserLaws.ParsedCallIsSound` | src/analyzer/script.cpp:420-610 | a call has as many words as its command |
| `ParserLaws.ParsedCallsAreStamped` | src/analyzer/script.cpp:431-434 | every call of a parsed script carries the namespace that the names around it lead to |
| `ParserLaws.NamespaceInsideIsParsers` | src/analyzer/script.cpp:545-553 | the parser's namespace inside a word can be read off the call it built |
| `Agreement.EvalAgreement` | src/analyzer/script.cpp:585-594 | inside `namespace eval` the parser's text is the printed name of the indexer's node if and only if the name is relative text that, inside another namespace, is a single non-empty component |
| `Agreement.ProcAgreement` | src/analyzer/script.cpp:545-553 | inside a proc they agree if and only if the name has parts and, inside another namespace, is absolute or unqualified |
| `Agreement.EvalPath` | src/analyzer/index.cpp:640-650 | the index pass enters the components of the name of a `namespace eval` below the namespace it is in, whatever the name |
| `Agreement.ParserAndIndexerAgree` | src/analyzer/index.cpp:627-691 | for every parsed script, each call the second pass meets carries the printed name of the namespace it is met in if and only if the names in the script agree |
| `Stamps.InsideIsAbsolute` | src/analyzer/script.cpp:545-553 | inside a call met in an absolute namespace the namespace is absolute, except exactly in the body of a proc with a plain-text name that cannot be split |
| `Stamps.StampsAreAbsolute` | src/analyzer/script.cpp:431-434 | for every parsed script, every call carries an absolute namespace if and only if no such proc has a call in its body |
| `Stamps.NoRequestAborts` | src/analyzer/index.cpp:256-262 | then no request about the script fails the assertion that the namespace is absolute |
| `Cursor.FindPositionInWord` | src/analyzer/index.cpp:711-751 | the early-exit search of a word, as a function of word and position |
| `Cursor.FindPositionInScript` | src/analyzer/index.cpp:753-784 | the early-exit search of a script, as a function of script and position |
| `CursorLaws.SearchIsFlatScan` | src/analyzer/index.cpp:753-784 | on tidy scripts in document order the search returns the last item at or before the position if and only if the position is clear, or that item names nothing and the search finds nothing |
| `CursorLaws.EmptySearch` | src/analyzer/index.cpp:753-784 | the search finds nothing exactly when no word is reached or the last one reached is, or ends in, a script in which nothing is found |
| `CursorLaws.SplitWordIsLost` | src/analyzer/index.cpp:735-743 | a component that starts after the position discards what the earlier components found |
| `CursorLaws.LeafFound` | src/analyzer/index.cpp:735-748 | a list that ends in text gives that text, under its own call if and only if no script came before it |
| `CursorLaws.FoundWordIsOwn` | src/analyzer/index.cpp:762-781 | at a clear position the word found lies under the named argument of the named call |
| `CursorPlaces.ListedInCalls` | src/analyzer/index.cpp:753-784 | every word of a call that the scan meets, unless made of other words, is listed at its position under that call and its number |
| `CursorPlaces.FoundAtItsWord` | src/analyzer/index.cpp:753-784 | the search at the position of such a word gives that call, with the number of the word as argument, if and only if the position is clear |
| `Layout.ParsedScriptIsOrderly` | src/analyzer/source_location.cpp:112-123 | a script parsed from tokens that lie inside each other and one after the other in a text has its places in document order, apart from each other, and no word twice |
| `ParsedCursors.ParsedCallsAreTidy` | src/analyzer/script.cpp:269-293 | scripts parsed from the library's tokens are tidy |
| `Framing.Writer.SendMessage` | src/lsp/comms.cpp:177-197 | exactly `Content-Length: `, the length, two line ends of carriage return and newline, and the payload are written, and the buffer is empty again |
| `Framing.Reader.ReadLine` | src/lsp/comms.cpp:41-65 | the bytes up to the first newline are in the buffer, however they arrived |
| `Framing.Reader.ReadHeaderLine` | src/lsp/comms.cpp:67-127 | a header line ends the headers, sets the length or is ignored |
| `Framing.Reader.ReadHeaderLines` | src/lsp/comms.cpp:34-128 | the header loop leaves the stream after the line that ends the headers |
| `Framing.Reader.ReadBody` | src/lsp/comms.cpp:144-171 | the body is the next bytes of the announced length, or none when the stream ends first |
| `Framing.Reader.ReadMessage` | src/lsp/comms.cpp:24-175 | the next message depends on the bytes of the stream alone, not on how it is cut into chunks |
| `Framing.Reader.ReceiveAll` | src/server.cpp:69-80 | resuming the reader until it ends gives all messages of the stream |
| `Framing.DecimalValue` | src/lsp/comms.cpp:186-188 | reading a written length back gives the length |
| `Framing.DecimalIsShort` | src/lsp/comms.cpp:186-188 | and it is written without leading zeros |
| `Framing.BlankLinesSkipped` | src/lsp/comms.cpp:136-142 | blank lines before a frame are skipped |
| `Framing.ForeignFrameIsRead` | src/lsp/comms.cpp:65-142 | a frame whose length field is written in any case, with other header fields before and after it, is read all the same, and passed over when its payload is empty |
| `Framing.OtherHeadersSkipped` | src/lsp/comms.cpp:92-96 | header lines with other fields, or without a colon, change nothing |
| `Framing.FrameIsRead` | src/lsp/comms.cpp:177-197 | reading a frame gives its payload, whatever it holds, and leaves what follows; a frame without payload is passed over |
| `Framing.CutFrameGivesNothing` | src/lsp/comms.cpp:144-171 | a frame cut short anywhere gives no message |
| `Framing.LaterLengthCounts` | src/lsp/comms.cpp:112-119 | of several length fields the last one counts |
| `Framing.BadLengthIsPassedOver` | src/lsp/comms.cpp:100-119 | a length field without a number ends the headers, and reading goes on after it |
| `Framing.StreamIsRead` | src/lsp/comms.cpp:24-175 | a stream of frames with any blank lines between them is read as the list of the payloads that are not empty |
| `Framing.Transfer` | src/lsp/comms.cpp:24-197 | whatever way the framed stream is cut into chunks, exactly the payloads that are not empty are received, in order |
| `Queries.HandleQuery` | src/lsp/handlers.cpp:173-328 | a request is rejected exactly when no word is found, gives nothing and changes nothing at a word that is not text or not argument 0, and otherwise is answered from the index and changes it only by namespaces that the lookup creates |
| `Queries.OnlyNamesAreLookedUp` | src/lsp/handlers.cpp:190-240 | only at a text word that is argument 0 does a request give locations or create a namespace |
| `Queries.FailuresExactly` | src/analyzer/index.cpp:256-262 | there it fails the assertion exactly when the namespace of the call is not absolute, throws exactly when that or the name cannot be split, and gives nothing where the namespace does not exist |
| `Queries.RequestAtPosition` | src/lsp/handlers.cpp:173-328 | at a clear position a request is rejected exactly when the last place at or before it names no word, and gives nothing when it is under a later argument or not text |
| `Queries.RequestAtArgument` | src/lsp/handlers.cpp:199-201 | a request at the position of a later word of a call gives nothing and changes nothing |
| `Queries.AnswerIsStable` | src/lsp/handlers.cpp:203-217 | namespaces created meanwhile change the answer to a request exactly when it looks in one of them and its name throws or is held there or further up |
| `Queries.QueriesCommute` | src/lsp/handlers.cpp:203-217 | a request changes the answer to a later one exactly when it creates the namespace the later one looks in and the later name throws or is held there or further up |
| `Queries.HeldNowhereDecides` | src/analyzer/index.cpp:526-624 | a name resolves to nothing exactly when no level the lookup may reach holds it |
| `Queries.BuiltIsDefined` | src/analyzer/index.cpp:356-360 | in an index that a build leaves, every proc has a definition to answer with |
| `Queries.AnswerAt` | src/lsp/handlers.cpp:199-217 | where parser and indexer agree, a request at a call looks in the namespace where the call was met |
| `Queries.QueryAtCall` | src/lsp/handlers.cpp:173-328 | at the position of the name of such a call, if clear, a references request returns the call itself among the references to what it resolved to, and a definition request exactly one location |
| `Protocol.ReachableStates` | src/lsp/parse_manager.cpp:10-40 | in every reachable state a document's script is the parse of its text, or is queued or running with that text, or the text cannot be indexed; and the index is that of the script committed last |
| `Protocol.StepKeepsInvariant` | src/lsp/handlers.cpp:71-150 | every message, request and worker step keeps that |
| `Protocol.FinishJobKeepsInvariant` | src/lsp/parse_manager.cpp:14-37 | committing a snapshot keeps it even when the text has changed since |
| `Protocol.BuildableExactly` | src/lsp/parse_manager.cpp:22-30 | a text can be built exactly when nothing in its parse stops a pass: neither a name without parts nor an argument without elements |
| `Protocol.QuietIsCurrent` | src/lsp/server.hpp:59-61 | with nothing queued or running, a script is the parse of its text if and only if nothing in that parse stops an index pass |
| `Protocol.WorkerMakesProgress` | src/lsp/server.hpp:59-61 | every worker step lowers the amount of work by one |
| `Protocol.WorkerDrains` | src/lsp/server.hpp:59-61 | left alone, the worker reaches a quiet state in that many steps and changes no text or version |
| `Protocol.DrainedIsCurrent` | src/lsp/parse_manager.cpp:10-40 | then a document is current if and only if nothing in its text stops an index pass |
| `Strand.StrandIsFifo` | src/lsp/server.hpp:59-61 | over every run, the reparses started and then those queued are those queued at first and then those asked for by opens and accepted changes, in the same order |
| `Strand.LastJobIsLast` | src/lsp/server.hpp:59-61 | left alone, the worker ends with the last of its jobs whose text can be built: that document is committed last and the shared index is the one built from it |
| `Strand.OpenedLastIsServed` | src/lsp/handlers.cpp:81-83 | so of two documents opened one after the other the second one is served |
| `Protocol.TextChangesRaiseVersion` | src/lsp/handlers.cpp:117-126 | a step that changes a text raises the version and queues the document |
| `Protocol.VersionsNeverGoBack` | src/lsp/handlers.cpp:117-126 | over every run, stored and committed versions never decrease and no document is lost |
| `Protocol.AnswersComeFromLastCommit` | src/lsp/parse_manager.cpp:32-37 | after a commit, answers are those of the index of the script committed last, except exactly where a request has created the namespace asked in and the name throws or is held there or further up |
| `Protocol.ServedAtCall` | src/lsp/handlers.cpp:173-328 | after a commit, in whatever state, a request at the position of the name of a call of that script, if clear, is answered with what the call resolves to among all its procs |
| `ClientTexts.OpenedTextIsStored` | src/lsp/handlers.cpp:77-79 | after an open the text opened is stored exactly when the document was unknown or had that text; a known document stays as it is |
| `ClientTexts.StepInStep` | src/lsp/handlers.cpp:71-128 | a message keeps the stored texts those last sent exactly when it is an open of an unknown document, a single newer change of a known one, or brings the text stored anyway |
| `ClientTexts.StoredIsSent` | src/lsp/handlers.cpp:71-128 | over every run, the stored texts are at all times those last sent if and only if every message is of that kind |
| `ClientTexts.SentIsServed` | src/lsp/parse_manager.cpp:10-40 | then, with nothing queued or running, a script is the parse of the text last sent if and only if nothing in it stops an index pass |
| `ClientTexts.ReopenedIsDeaf` | src/lsp/handlers.cpp:116-121 | after a known document is opened again, changes count for nothing until their version exceeds the one stored before |
| `ClientTexts.DocumentsAreAsSent` | src/lsp/handlers.cpp:71-150 | over every run the documents known are those opened, their versions those of the first open or the newest single change since, and they count as open exactly when never closed |
| `Serving.QueryCreatesExactly` | src/analyzer/index.cpp:526-576 | a request leaves the index as it is exactly when it looks nothing up or every namespace it may look in exists |
| `Serving.SharedIndexExactly` | src/lsp/parse_manager.cpp:32-37 | over every run from a commit up to the next, the shared index is the one built from the script committed last if and only if no request has created a namespace |
| `Serving.RunsAreOrderly` | src/lsp/parse_manager.cpp:14-20 | over a library whose tokens are laid out in the text, every script the server ever holds has its places in order |
| `Serving.ServedInEveryRun` | src/lsp/handlers.cpp:173-328 | so in every run, after a commit, a request at a clear position on the name of a call that both passes meet is answered with what the call resolves to among all procs of the script |
| `Server.LanguageServer.constructor` | src/lsp/server.hpp:43-70 | a new server is in the initial state |
| `Server.LanguageServer.DidOpen` | src/lsp/handlers.cpp:71-84 | opening is the open step: a document already there keeps its text |
| `Server.LanguageServer.DidChange` | src/lsp/handlers.cpp:110-128 | changing is the change step: only a newer, single full text is taken |
| `Server.LanguageServer.DidClose` | src/lsp/handlers.cpp:138-150 | closing is the close step: the document stays |
| `Server.LanguageServer.Request` | src/lsp/handlers.cpp:173-328 | a request is the query step and returns its answer; an unknown document throws |
| `Server.LanguageServer.StartReparse` | src/lsp/parse_manager.cpp:10-17 | the job queued first starts, with a snapshot of the text as it is |
| `Server.LanguageServer.FinishReparse` | src/lsp/parse_manager.cpp:19-39 | script and index are replaced together from fresh objects, or not at all when building ends early |
| `Server.LanguageServer.ParseAndIndex` | src/lsp/parse_manager.cpp:14-30 | parsing and building the snapshot gives the script and index that the protocol speaks of |
| `Server.LanguageServer.Drain` | src/lsp/server.hpp:59-61 | the worker loop ends quiet, in the state the protocol predicts |
| `Counterexamples.ThreeColonsThrow` | src/analyzer/script.cpp:92-95 | the name `:::x` has no parts: taking two characters off its namespace throws |
| `Counterexamples.ThreeColonsSplitTwoWays` | src/analyzer/script.cpp:20-38 | `a:::b` is cut in two different ways by the two splitting functions |
| `Counterexamples.TwoNamespacesOneName` | src/analyzer/index.cpp:203-213 | two different namespace paths print alike |
| `Counterexamples.QualifiedNameIsGlued` | src/analyzer/script.cpp:61-63 | a qualified name inside a namespace is joined to it without a separator |
| `Counterexamples.AbsoluteEvalDisagrees` | src/analyzer/index.cpp:380-384 | the body of `namespace eval ::X` at the top is stamped `::X` and indexed below a child without a name |
| `Counterexamples.TrailingArgsIsNotVariadic` | src/analyzer/index.cpp:317-327 | a list `a args` declares one argument and any more, and is counted as exactly two |
| `Counterexamples.SingleArgumentIsNotCounted` | src/analyzer/script.cpp:410-413 | a list of one argument stays text and is counted as none |
| `Counterexamples.BodyVisits` | src/analyzer/index.cpp:652-662 | the body of a proc `::B::f` inside A is scanned in A and indexed in B |
| `Counterexamples.BodyIsWalkedApart` | src/analyzer/index.cpp:390-393 | so a proc defined there is filed in A, and the call of it just after resolves to nothing |
| `Counterexamples.PassesDisagree` | src/analyzer/index.cpp:458-464 | the two passes disagree about that script |
| `Counterexamples.SplitWordIsMissed` | src/analyzer/index.cpp:735-743 | in `puts "a$b"` the `a` is the last place at or before a position on it, yet the search of the script returns `puts` |
| `Counterexamples.TextAfterScriptHasWrongCall` | src/analyzer/index.cpp:735-748 | in `puts "[f] x"` the search of the script finds the text after the bracket under the call of `f` |
| `Counterexamples.RequestChangesAnswer` | src/analyzer/index.cpp:535-538 | a definition request finds nothing, and after another request has created a namespace it finds a proc |
| `Counterexamples.ReopenLosesText` | src/lsp/handlers.cpp:77-79 | a document opened again keeps its old text, and the change after it is dropped |
| `Counterexamples.NameStopsReparse` | src/analyzer/script.cpp:92-95 | a document with the one command `:::x` never gets its script |
| `Counterexamples.EmptyArgumentStopsReparse` | src/analyzer/index.cpp:334 | neither does one with the one command `proc f {a {}} {}` |
| `Counterexamples.StampAborts` | src/analyzer/index.cpp:256-262 | in `namespace eval [proc :::x {} {foo}] {}` the call of `foo` is stamped `:`, the build completes, and a request at `foo` fails the assertion |

## Left out

- The Tcl library, JSON, asio, coroutines, threads and logging; the main programs, the serialisation of protocol types and the build.
- The variables table, `scope.procs` and argument names: they feed nothing.
- Undefined behaviour after an empty argument element is read: the model ends the scan there and the program goes on in no defined way.
- Source locations of error words: no error word is ever produced from an array that the library returns.
- Lifetimes of string views and of the source file a location points to: locations hold the file's name, words their text.
- Identity of calls and words: a cursor holds values where the program holds pointers.
- Stream limits: memory, and the largest buffer a stream may grow to.
- The two locks of a request: cursor and index are read in one step, so answers are stated for requests between which no commit falls.
- Unlocked reads of a document's text by the worker are atomic steps.
- `std::isspace` on bytes above 127, which is undefined, is taken to be false.
- Assertions that can fail on malformed token arrays: the parser is modelled on the arrays that trees list.
- CursorLaws.SearchIsFlatScan: stated of scripts whose items come in document order and list no word twice; `Layout.ParsedScriptIsOrderly` proves that of scripts parsed from tokens laid out in the text, and the layout itself is taken from the library.
- CursorPlaces.FoundAtItsWord: calls in an array index are listed nowhere and found by no search.
- Agreement.ParserAndIndexerAgree: speaks of the calls that the second pass would meet; calls in the name and argument words of a proc or `namespace eval` are met by no index pass but can be found by a request.
- Queries.QueryAtCall: covers calls where parser and indexer agree on a recoverable namespace; elsewhere a request looks in another namespace, in none, or stops at the assertion that the call's namespace is absolute (`Counterexamples.StampAborts`).
- Framing.Transfer: payloads are shorter than 2^64; a longer one has a length that the reader rejects.
- ClientTexts.StoredIsSent: the client is taken to send whole texts; changes of a range are stored as if they were whole texts, as the program does.
