/** The script tree that the parser builds: `Word`, `Call` and `Script` of src/analyzer/script.cpp.

    The program tags a word with a type and keeps its payload in a variant; here the tag and the payload are
    one constructor. Every word has a location and the text it was read from. */
module Syntax {
  import opened SourceFiles

  datatype Word =
    | TextWord(location: SourceLocation, text: string)
    | VariableWord(location: SourceLocation, text: string)
    | ArrayAccess(location: SourceLocation, text: string, name: string, index: seq<Word>)
    | ScriptWord(location: SourceLocation, text: string, script: Script)
    | TokenList(location: SourceLocation, text: string, words: seq<Word>)
    | Expand(location: SourceLocation, text: string, words: seq<Word>)
    | ListWord(location: SourceLocation, text: string, words: seq<Word>)
    | ErrorWord(location: SourceLocation, text: string)

  datatype CallType = PROC | WHILE | FOR | FOREACH | NAMESPACE_EVAL | IF | USER

  /** A command; `ns` is the namespace the parser was in when it met it. */
  datatype Call = Call(kind: CallType, words: seq<Word>, ns: string)

  datatype Script = Script(location: SourceLocation, commands: seq<Call>)

  /** What the index passes rely on when they read fixed words of a call. */
  predicate ShapedCall(call: Call) {
    && |call.words| >= 1
    && (call.kind == PROC || call.kind == NAMESPACE_EVAL ==> |call.words| == 4)
  }

  predicate ShapedScript(script: Script) {
    ShapedCalls(script.commands)
  }

  predicate ShapedCalls(calls: seq<Call>) {
    forall i :: 0 <= i < |calls| ==> ShapedCall(calls[i]) && ShapedWords(calls[i].words)
  }

  predicate ShapedWords(words: seq<Word>) {
    forall i :: 0 <= i < |words| ==> ShapedWord(words[i])
  }

  predicate ShapedWord(word: Word) {
    match word
    case ArrayAccess(_, _, _, index) => ShapedWords(index)
    case ScriptWord(_, _, script) => ShapedScript(script)
    case TokenList(_, _, words) => ShapedWords(words)
    case Expand(_, _, words) => ShapedWords(words)
    case ListWord(_, _, words) => ShapedWords(words)
    case _ => true
  }
}
