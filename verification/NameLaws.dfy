/** Splitting, joining and printing names undo each other; where they do not, exactly when they do. */
module NameLaws {
  import opened Options
  import opened Names

  predicate EndsWithColon(s: string) {
    s != "" && s[|s| - 1] == ':'
  }

  /** Lists that survive being joined and split again: no component holds a separator,
      and only the last one may end in a colon. */
  predicate Splittable(parts: seq<string>) {
    && parts != []
    && (forall i :: 0 <= i < |parts| ==> !HasSep(parts[i]))
    && (forall i :: 0 <= i < |parts| - 1 ==> !EndsWithColon(parts[i]))
  }

  lemma {:induction false} JoinComponents(path: string)
    ensures Join(Components(path)) == path
  {
    if path != "" {
      if SepAt(path, 0) {
        JoinComponents(path[2..]);
        assert path == "" + SEP + path[2..];
      } else {
        JoinComponents(path[1..]);
        JoinAttach([path[0]], Components(path[1..]));
      }
    }
  }

  lemma JoinAttach(text: string, parts: seq<string>)
    requires parts != []
    ensures Join(Attach(text, parts)) == text + Join(parts)
  {
    if |parts| > 1 {
      assert Attach(text, parts)[1..] == parts[1..];
      assert text + parts[0] + SEP + Join(parts[1..]) == text + (parts[0] + SEP + Join(parts[1..]));
    }
  }

  lemma {:induction false} ComponentsAreSplittable(path: string)
    ensures Splittable(Components(path))
    ensures Components(path)[0] <= path
    ensures |Components(path)| > 1 ==> SepAt(path, |Components(path)[0]|)
  {
    if path != "" {
      if SepAt(path, 0) {
        ComponentsAreSplittable(path[2..]);
      } else {
        ComponentsAreSplittable(path[1..]);
        AttachKeepsSplittable(path, Components(path[1..]));
      }
    }
  }

  lemma AttachKeepsSplittable(path: string, rest: seq<string>)
    requires path != "" && !SepAt(path, 0) && Splittable(rest)
    requires rest[0] <= path[1..] && (|rest| > 1 ==> SepAt(path[1..], |rest[0]|))
    ensures var parts := Attach([path[0]], rest);
            Splittable(parts) && parts[0] <= path && (|parts| > 1 ==> SepAt(path, |parts[0]|))
  {
    var first := [path[0]] + rest[0];
    assert path == [path[0]] + path[1..];
    assert forall i :: 1 <= i < |first| ==> SepAt(first, i) == SepAt(rest[0], i - 1);
    assert !SepAt(first, 0);
    assert !HasSep(first);
  }

  /** Joining and then splitting gives the list back exactly for splittable lists. */
  lemma {:induction false} ComponentsOfJoin(parts: seq<string>)
    requires parts != []
    ensures Components(Join(parts)) == parts <==> Splittable(parts)
  {
    if Splittable(parts) {
      SplittableComponentsOfJoin(parts);
    } else {
      ComponentsAreSplittable(Join(parts));
    }
  }

  lemma {:induction false} SplittableComponentsOfJoin(parts: seq<string>)
    requires Splittable(parts)
    ensures Components(Join(parts)) == parts
  {
    if |parts| == 1 {
      ComponentsWithoutSep(parts[0]);
    } else {
      hide Components;
      var a, rest := parts[0], parts[1..];
      SplittableComponentsOfJoin(rest);
      var s := Join(parts);
      assert s[..|a|] == a && s[|a| + 2..] == Join(rest);
      ComponentsAroundSep(s, |a|);
      ComponentsWithoutSep(a);
    }
  }

  lemma {:induction false} ComponentsWithoutSep(s: string)
    requires !HasSep(s)
    ensures Components(s) == [s]
  {
    if s != "" {
      assert forall i :: 0 <= i < |s| - 1 ==> SepAt(s[1..], i) == SepAt(s, i + 1);
      assert !SepAt(s, 0);
      ComponentsWithoutSep(s[1..]);
      assert [s[0]] + s[1..] == s;
    }
  }

  /** A separator that is not preceded by a colon always splits. */
  lemma {:induction false} ComponentsAroundSep(s: string, pos: nat)
    requires SepAt(s, pos) && (pos > 0 ==> s[pos - 1] != ':')
    ensures Components(s) == Components(s[..pos]) + Components(s[pos + 2..])
  {
    hide Components, Attach;
    ComponentsStep(s);
    if pos == 0 {
      assert s[..0] == "" && Components("") == [""] by {
        NoComponents();
      }
    } else {
      var step := if SepAt(s, 0) then 2 else 1;
      var rest := s[step..];
      assert SepAt(rest, pos - step);
      ComponentsAroundSep(rest, pos - step);
      assert rest[..pos - step] == s[..pos][step..];
      assert rest[pos - step + 2..] == s[pos + 2..];
      assert SepAt(s[..pos], 0) == SepAt(s, 0);
      ComponentsStep(s[..pos]);
      if step == 1 {
        AttachAppend([s[0]], Components(rest[..pos - step]), Components(s[pos + 2..]));
      }
    }
  }

  lemma NoComponents()
    ensures Components("") == [""]
  {
  }

  lemma ComponentsStep(s: string)
    requires s != ""
    ensures Components(s) ==
            if SepAt(s, 0) then [""] + Components(s[2..]) else Attach([s[0]], Components(s[1..]))
  {
  }

  lemma AttachAppend(text: string, a: seq<string>, b: seq<string>)
    requires a != []
    ensures Attach(text, a + b) == Attach(text, a) + b
  {
  }

  // ------------------------------------------------------------------
  // SplitName
  // ------------------------------------------------------------------

  /** `Path` puts back together what `SplitName` took apart. */
  lemma PathOfSplitName(name: string)
    requires name != ""
    ensures SplitName(name).Path() == name
  {
    var pos := LastSep(name);
    if pos >= 0 {
      assert name == name[..pos] + SEP + name[pos + 2..];
    }
  }

  /** Seen from the global namespace every name becomes absolute, whether or not it was written so. */
  lemma AbsPathAtGlobal(name: string)
    ensures SplitName(name).AbsPath("").Path() ==
            if StartsWithSep(name) then name else SEP + name
  {
    if name != "" {
      PathOfSplitName(name);
      var qn := SplitName(name);
      if qn.ns.Some? && !qn.absolute {
        assert SEP + (qn.ns.value + SEP + qn.name) == (SEP + qn.ns.value) + SEP + qn.name;
      }
    }
  }

  /** The tail of a split name holds no separator and does not start with a colon. */
  lemma TailOfSplitName(name: string)
    ensures !HasSep(SplitName(name).name)
    ensures SplitName(name).name != "" && LastSep(name) >= 0 ==> SplitName(name).name[0] != ':'
  {
    var pos := LastSep(name);
    var tail := SplitName(name).name;
    if pos >= 0 {
      assert |name| > 2 || !StartsWithSep(name) ==> tail == name[pos + 2..];
      forall i | 0 <= i < |tail| ensures !SepAt(tail, i) {
        assert !SepAt(name, pos + 2 + i);
      }
      assert !SepAt(name, pos + 1);
    } else {
      forall i | 0 <= i < |tail| ensures !SepAt(tail, i) {
        assert !SepAt(name, i);
      }
    }
  }

  /** Names whose namespace cannot be split: three leading colons and no separator after them. */
  predicate Unresolvable(name: string) {
    StartsWithSep(name) && LastSep(name) == 1
  }

  lemma NamespacePartsThrowExactly(name: string)
    ensures SplitName(name).NamespaceParts().None? <==> Unresolvable(name)
  {
  }

  /** Number of consecutive colons that end just before index `end`. */
  function ColonRun(s: string, end: nat): nat
    requires end <= |s|
  {
    if end == 0 || s[end - 1] != ':' then 0 else 1 + ColonRun(s, end - 1)
  }

  lemma {:induction false} ColonRunOfPrefix(s: string, n: nat, end: nat)
    requires end <= n <= |s|
    ensures ColonRun(s[..n], end) == ColonRun(s, end)
  {
    if end > 0 {
      ColonRunOfPrefix(s, n, end - 1);
    }
  }

  lemma {:induction false} ColonRunAfterSep(s: string, end: nat)
    requires StartsWithSep(s) && 2 <= end <= |s|
    ensures ColonRun(s[2..], end - 2) % 2 == ColonRun(s, end) % 2
  {
    if end > 2 {
      ColonRunAfterSep(s, end - 1);
    } else {
      assert ColonRun(s, 1) == 1 + ColonRun(s, 0);
    }
  }

  /** Greedy splitting stops at the end of a run of colons exactly when the run has even length. */
  lemma {:induction false} ComponentsAtEvenRun(s: string, pos: nat)
    requires SepAt(s, pos) && ColonRun(s, pos + 2) % 2 == 0
    ensures Components(s) == Components(s[..pos]) + Components(s[pos + 2..])
    decreases pos, |s|, 1
  {
    assert ColonRun(s, pos + 2) == 2 + ColonRun(s, pos) by {
      assert ColonRun(s, pos + 2) == 1 + ColonRun(s, pos + 1);
    }
    if pos == 0 || s[pos - 1] != ':' {
      ComponentsAroundSep(s, pos);
    } else {
      assert ColonRun(s, pos) == 1 + ColonRun(s, pos - 1);
      assert pos >= 2 && SepAt(s, pos - 2);
      ComponentsAtEvenRun(s, pos - 2);
      ComponentsOfTwoSeps(s, pos);
    }
  }

  lemma {:induction false} ComponentsOfTwoSeps(s: string, pos: nat)
    requires pos >= 2 && SepAt(s, pos) && SepAt(s, pos - 2) && ColonRun(s, pos) % 2 == 0
    requires Components(s) == Components(s[..pos - 2]) + Components(s[pos..])
    ensures Components(s) == Components(s[..pos]) + Components(s[pos + 2..])
    decreases pos, |s|, 0
  {
    var x, y := s[..pos], s[pos..];
    ColonRunOfPrefix(s, pos, pos);
    assert SepAt(x, pos - 2);
    ComponentsAtEvenRun(x, pos - 2);
    assert x[..pos - 2] == s[..pos - 2] && x[pos..] == "";
    assert SepAt(y, 0) && y[2..] == s[pos + 2..];
    assert Components("") == [""];
  }

  /** Cutting off the tail at the last separator agrees with splitting all of t. */
  lemma TailCutMatchesComponents(t: string, tail: string)
    requires LastSep(t) >= 0 && tail == t[LastSep(t) + 2..]
    ensures Components(t[..LastSep(t)]) + (if tail == "" then [] else [tail]) == Components(t) <==>
            tail != "" && ColonRun(t, LastSep(t) + 2) % 2 == 0
  {
    hide Components;
    var pos := LastSep(t);
    forall i | 0 <= i < |tail| ensures !SepAt(tail, i) {
      assert !SepAt(t, pos + 2 + i);
    }
    ComponentsWithoutSep(tail);
    if tail == "" {
      JoinComponents(t[..pos]);
      JoinComponents(t);
      assert Components(t[..pos]) + [] == Components(t[..pos]);
    } else if ColonRun(t, pos + 2) % 2 == 0 {
      ComponentsAtEvenRun(t, pos);
    } else {
      OddRunKeepsColon(t, pos);
    }
  }

  /** Before an odd run of colons the last component keeps a colon. */
  lemma OddRunKeepsColon(t: string, pos: nat)
    requires SepAt(t, pos) && ColonRun(t, pos + 2) % 2 != 0
    requires forall i :: pos < i < |t| ==> !SepAt(t, i)
    ensures Components(t)[|Components(t)| - 1] == t[pos + 1..]
  {
    hide Components;
    assert ColonRun(t, pos + 2) == 1 + ColonRun(t, pos + 1);
    assert ColonRun(t, pos + 1) == 1 + ColonRun(t, pos);
    assert SepAt(t, pos - 1);
    ComponentsAtEvenRun(t, pos - 1);
    var last := t[pos + 1..];
    forall i | 0 <= i < |last| ensures !SepAt(last, i) {
      assert !SepAt(t, pos + 1 + i);
    }
    ComponentsWithoutSep(last);
  }

  /** `SplitName(s).Parts()` is `SplitPath` of s without its leading separator exactly when the tail is
      not empty and the colons before it pair up. */
  lemma PartsMatchComponents(name: string)
    ensures var relative := if StartsWithSep(name) then name[2..] else name;
            var pos := LastSep(name);
            SplitName(name).Parts() == Some(Components(relative)) <==>
            SplitName(name).name != "" && (pos < 0 || ColonRun(name, pos + 2) % 2 == 0)
  {
    var pos := LastSep(name);
    var tail := SplitName(name).name;
    if pos < 0 {
      ComponentsWithoutSep(name);
      assert [] + [name] == [name];
    } else if !StartsWithSep(name) {
      TailCutMatchesComponents(name, tail);
    } else {
      AbsolutePartsMatchComponents(name);
    }
  }

  lemma AbsolutePartsMatchComponents(name: string)
    requires StartsWithSep(name)
    ensures SplitName(name).Parts() == Some(Components(name[2..])) <==>
            SplitName(name).name != "" && ColonRun(name, LastSep(name) + 2) % 2 == 0
  {
    var pos, t := LastSep(name), name[2..];
    assert forall i :: 0 <= i < |t| ==> SepAt(t, i) == SepAt(name, i + 2);
    assert ColonRun(name, 1) == 1 && ColonRun(name, 2) == 2;
    if pos == 0 {
      ComponentsWithoutSep(t);
      assert name[2..] == t && [] + [t] == [t];
    } else if pos == 1 {
      assert ColonRun(name, 3) == 3;
    } else {
      assert LastSep(t) == pos - 2 by {
        assert SepAt(t, pos - 2);
        assert LastSep(t) >= 0 ==> SepAt(name, LastSep(t) + 2);
      }
      assert name[..pos][2..] == t[..pos - 2] && t[pos..] == name[pos + 2..];
      TailCutMatchesComponents(t, t[pos..]);
      ColonRunAfterSep(name, pos + 2);
    }
  }

  // ------------------------------------------------------------------
  // Printing a namespace path and reading it back
  // ------------------------------------------------------------------

  lemma {:induction false} PrintAppend(p: Path, q: Path)
    ensures Print(p + q) == Print(p) + Print(q)
  {
    if q == [] {
      assert p + q == p;
    } else {
      var n := |q| - 1;
      assert (p + q)[..|p + q| - 1] == p + q[..n];
      PrintAppend(p, q[..n]);
    }
  }

  lemma {:induction false} PrintIsJoin(q: Path)
    requires q != []
    ensures Print(q) == SEP + Join(q)
  {
    if |q| == 1 {
      assert q[..0] == [];
    } else {
      assert q == [q[0]] + q[1..];
      PrintAppend([q[0]], q[1..]);
      assert Print([q[0]]) == SEP + q[0] by { assert [q[0]][..0] == []; }
      PrintIsJoin(q[1..]);
    }
  }

  /** Going down from path p by the components of text t prints as p, a separator and t. */
  lemma PrintComponents(p: Path, t: string)
    ensures Print(p + Components(t)) == Print(p) + SEP + t
  {
    PrintAppend(p, Components(t));
    PrintIsJoin(Components(t));
    JoinComponents(t);
    assert Print(p) + (SEP + t) == Print(p) + SEP + t;
  }

  /** Paths whose printed form denotes them: the last component is a non-empty, separator-free string that
      does not start with a colon, and the others can be split apart again. */
  predicate Recoverable(p: Path) {
    p == [] ||
    var init, last := p[..|p| - 1], p[|p| - 1];
    && last != "" && last[0] != ':' && !HasSep(last)
    && (init == [] || Splittable(init))
  }

  /** A component that is non-empty, has no separator and neither starts nor ends with a colon. */
  predicate WellFormedComponent(c: string) {
    c != "" && c[0] != ':' && !EndsWithColon(c) && !HasSep(c)
  }

  lemma WellFormedPathsAreRecoverable(p: Path)
    requires forall i :: 0 <= i < |p| ==> WellFormedComponent(p[i])
    ensures Recoverable(p)
  {
  }

  /** Reading a printed path gives that path back exactly when it is recoverable. */
  lemma PrintThenSplit(p: Path)
    ensures SplitName(Print(p)).Parts() == Some(p) <==> Recoverable(p)
  {
    if p != [] {
      if Recoverable(p) {
        RecoverablePrintThenSplit(p);
      } else if SplitName(Print(p)).Parts() == Some(p) {
        PrintThenSplitOnlyIfRecoverable(p);
      }
    }
  }

  lemma RecoverablePrintThenSplit(p: Path)
    requires p != [] && Recoverable(p)
    ensures SplitName(Print(p)).Parts() == Some(p)
  {
    hide Join, Components;
    var init, last := p[..|p| - 1], p[|p| - 1];
    var s, ns := Print(p), Print(init);
    PrintIsJoin(p);
    assert StartsWithSep(s);
    LastSepBeforeTail(ns, last);
    if init != [] {
      PrintIsJoin(init);
      assert ns[2..] == Join(init);
      SplittableComponentsOfJoin(init);
    }
    assert init + [last] == p;
  }

  /** The separator put before a tail is the last one. */
  lemma LastSepBeforeTail(ns: string, last: string)
    requires last != "" && last[0] != ':' && !HasSep(last)
    ensures var s := ns + SEP + last;
            LastSep(s) == |ns| && s[..|ns|] == ns && s[|ns| + 2..] == last
  {
    var s := ns + SEP + last;
    assert SepAt(s, |ns|);
    forall i | |ns| < i < |s| ensures !SepAt(s, i) {
      if i >= |ns| + 2 {
        assert !SepAt(last, i - |ns| - 2);
      }
    }
  }

  lemma PrintThenSplitOnlyIfRecoverable(p: Path)
    requires p != [] && SplitName(Print(p)).Parts() == Some(p)
    ensures Recoverable(p)
  {
    var s := Print(p);
    PrintIsJoin(p);
    assert StartsWithSep(s);
    TailOfSplitName(s);
    var qn := SplitName(s);
    var parts := qn.NamespaceParts().value;
    if qn.ns.value != "" {
      ComponentsAreSplittable(qn.ns.value[2..]);
      if qn.name == "" {
        JoinComponents(qn.ns.value[2..]);
        assert false;
      }
    }
    assert p[..|p| - 1] == parts && p[|p| - 1] == qn.name;
  }
}
