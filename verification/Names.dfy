/** Qualified Tcl names: `SplitPath`, `SplitName` and `QualifiedName` of src/analyzer/script.cpp.

    A name is a string whose components are separated by `::`. A path is the list of
    components of an absolute name, the global namespace being the empty path. */
module Names {
  import opened Options

  type Path = seq<string>

  const SEP := "::"

  /** A separator starts at index i. */
  predicate SepAt(s: string, i: int) {
    0 <= i && i + 1 < |s| && s[i] == ':' && s[i + 1] == ':'
  }

  predicate HasSep(s: string) {
    exists i :: 0 <= i < |s| && SepAt(s, i)
  }

  /** `name.rfind("::")`: index of the last separator, or -1. */
  function LastSep(s: string): (k: int)
    ensures -1 <= k < |s|
    ensures k >= 0 ==> SepAt(s, k)
    ensures forall i :: k < i < |s| ==> !SepAt(s, i)
  {
    LastSepBefore(s, |s|)
  }

  function LastSepBefore(s: string, end: nat): (k: int)
    requires end <= |s|
    ensures -1 <= k < end
    ensures k >= 0 ==> SepAt(s, k)
    ensures forall i :: k < i < end ==> !SepAt(s, i)
  {
    if end == 0 then -1
    else if SepAt(s, end - 1) then end - 1
    else LastSepBefore(s, end - 1)
  }

  /** Text put in front of the first component. */
  function Attach(text: string, parts: seq<string>): seq<string>
    requires parts != []
  {
    [text + parts[0]] + parts[1..]
  }

  /** The components of a path: reading from the left, every separator met ends a component. */
  function Components(path: string): (parts: seq<string>)
    ensures |parts| >= 1
  {
    if path == "" then [""]
    else if SepAt(path, 0) then [""] + Components(path[2..])
    else Attach([path[0]], Components(path[1..]))
  }

  /** Components written one after the other with a separator between neighbours. */
  function Join(parts: seq<string>): string {
    if parts == [] then ""
    else if |parts| == 1 then parts[0]
    else parts[0] + SEP + Join(parts[1..])
  }

  /** The loop that `Components` specifies: `cur` scans, `start` marks the component being read. */
  method SplitPath(path: string) returns (vec: seq<string>)
    ensures vec == Components(path)
  {
    vec := [];
    var start, cur := 0, 0;
    AttachNothing(Components(path));
    assert path[0..] == path && path[0..0] == "";
    while cur < |path|
      invariant 0 <= start <= cur <= |path|
      invariant vec + Attach(path[start..cur], Components(path[cur..])) == Components(path)
      decreases |path| - cur
    {
      if path[cur] == ':' && cur + 1 < |path| && path[cur + 1] == ':' {
        ScanSep(vec, path, start, cur);
        vec := vec + [path[start..cur]];
        cur := cur + 1;
        start := cur + 1;
      } else {
        ScanChar(path, start, cur);
      }
      cur := cur + 1;
    }
    assert path[start..] + "" == path[start..] && path[start..cur] == path[start..];
    vec := vec + [path[start..]];
  }

  lemma AttachNothing(parts: seq<string>)
    requires parts != []
    ensures Attach("", parts) == parts
  {
    assert "" + parts[0] == parts[0];
  }

  lemma ScanSep(vec: seq<string>, path: string, start: nat, cur: nat)
    requires start <= cur && SepAt(path, cur)
    ensures vec + Attach(path[start..cur], Components(path[cur..])) ==
            vec + [path[start..cur]] + Attach(path[cur + 2..cur + 2], Components(path[cur + 2..]))
  {
    assert path[cur..][2..] == path[cur + 2..];
    assert path[start..cur] + "" == path[start..cur];
    AttachNothing(Components(path[cur + 2..]));
    assert path[cur + 2..cur + 2] == "";
  }

  lemma ScanChar(path: string, start: nat, cur: nat)
    requires start <= cur < |path|
    requires !SepAt(path, cur)
    ensures Attach(path[start..cur], Components(path[cur..])) ==
            Attach(path[start..cur + 1], Components(path[cur + 1..]))
  {
    assert path[cur..][1..] == path[cur + 1..];
    var word, c, parts := path[start..cur], [path[cur]], Components(path[cur + 1..]);
    assert path[start..cur + 1] == word + c;
    assert word + (c + parts[0]) == word + c + parts[0];
  }

  /** A name taken apart: everything before the last separator, the tail, and whether it starts with one. */
  datatype QualifiedName = QualifiedName(ns: Option<string>, name: string, absolute: bool) {

    /** The name as seen from `currentPath`. The namespace is appended to a non-empty current path
        with no separator between them, exactly as the program does. */
    function AbsPath(currentPath: string): QualifiedName {
      if absolute then this
      else if currentPath == "" then
        QualifiedName(Some(if ns.Some? then SEP + ns.value else ""), name, false)
      else
        QualifiedName(Some(currentPath + (if ns.Some? then ns.value else "")), name, false)
    }

    function Path(): string {
      if ns.Some? then ns.value + SEP + name else name
    }

    function Namespace(): string {
      if ns.Some? then ns.value else ""
    }

    /** The components of the namespace part. None is the `std::out_of_range` that `substr(2)` throws
        when an absolute namespace is a single character. */
    function NamespaceParts(): Option<seq<string>> {
      if ns.None? then Some([])
      else if absolute && ns.value != "" then
        if |ns.value| < 2 then None else Some(Components(ns.value[2..]))
      else if absolute then Some([])
      else Some(Components(ns.value))
    }

    function Parts(): Option<seq<string>> {
      match NamespaceParts()
      case None => None
      case Some(parts) => Some(if name == "" then parts else parts + [name])
    }
  }

  predicate StartsWithSep(s: string) {
    SepAt(s, 0)
  }

  function SplitName(name: string): QualifiedName {
    var pos := LastSep(name);
    if name == "" then QualifiedName(Some(""), "", true)
    else if pos < 0 then QualifiedName(None, name, false)
    else if StartsWithSep(name) then
      if |name| > 2 then QualifiedName(Some(name[..pos]), name[pos + 2..], true)
      else QualifiedName(Some(""), "", true)
    else QualifiedName(Some(name[..pos]), name[pos + 2..], false)
  }

  /** What `GetPrintName` writes for a namespace path: each component preceded by a separator,
      and nothing at all for the global namespace. */
  function Print(path: Path): string {
    if path == [] then "" else Print(path[..|path| - 1]) + SEP + path[|path| - 1]
  }
}
