/** The index of src/analyzer/index.cpp: tables of namespaces and procs, changed in place by two passes over a
    script. Every method is specified by what `Resolution` says of the view that the tables stand for. */
module SemanticIndex {
  import opened Options
  import opened Names
  import opened NameLaws
  import opened SourceFiles
  import opened Database
  import opened Syntax
  import opened BestFit
  import opened Resolution
  import opened ResolutionLaws
  import opened Trie

  datatype ProcData = ProcData(arity: Arity, parentNamespace: ID)

  ghost predicate ParentsExist(table: seq<Row<ProcData>>, namespaceCount: nat) {
    forall i :: 0 <= i < |table| ==> 1 <= table[i].data.parentNamespace <= namespaceCount
  }

  /** The procs of a table, with the path of their namespace in place of its id. */
  ghost function EntriesOf(table: seq<Row<ProcData>>, paths: seq<Path>): seq<ProcEntry>
    requires ParentsExist(table, |paths|)
  {
    seq(|table|, i requires 0 <= i < |table| =>
      ProcEntry(paths[table[i].data.parentNamespace - 1], table[i].name, table[i].data.arity))
  }

  lemma EntriesKept(table: seq<Row<ProcData>>, paths: seq<Path>, more: seq<Path>)
    requires ParentsExist(table, |paths|) && paths <= more
    ensures EntriesOf(table, more) == EntriesOf(table, paths)
  {
  }

  /** The stack of namespaces the passes are in. */
  class ScanContext {
    var nsPath: seq<ID>

    constructor (global: ID)
      ensures nsPath == [global]
    {
      nsPath := [global];
    }

    method Push(id: ID)
      modifies this
      ensures nsPath == old(nsPath) + [id]
    {
      nsPath := nsPath + [id];
    }

    method Pop()
      requires nsPath != []
      modifies this
      ensures nsPath == old(nsPath)[..|old(nsPath)| - 1]
    {
      nsPath := nsPath[..|nsPath| - 1];
    }
  }

  class Index {
    const namespaces: RefRecord<NamespaceData>
    const procs: RefRecord<ProcData>
    const globalNamespaceID: ID
    ghost var paths: seq<Path>

    ghost predicate Valid()
      reads this, namespaces, procs
    {
      && namespaces as object != procs as object
      && namespaces.Valid() && procs.Valid()
      && globalNamespaceID == GLOBAL
      && |namespaces.table| == |paths| >= 1
      && IsTrie(namespaces.table, paths)
      && ParentsExist(procs.table, |paths|)
    }

    ghost function Entries(): seq<ProcEntry>
      requires Valid()
      reads this, namespaces, procs
    {
      EntriesOf(procs.table, paths)
    }

    ghost function ViewOf(): View
      requires Valid()
      reads this, namespaces, procs
    {
      View(paths, Entries(), procs.references)
    }

    /** `make_index`. */
    constructor ()
      ensures Valid() && fresh(namespaces) && fresh(procs)
      ensures ViewOf() == FRESH
    {
      namespaces := new RefRecord();
      procs := new RefRecord();
      globalNamespaceID := GLOBAL;
      new;
      var id := namespaces.Insert("", NamespaceData([], None));
      paths := [[]];
    }

    // ----------------------------------------------------------------
    // Namespaces
    // ----------------------------------------------------------------

    /** `std::find_if` over the children of a namespace. */
    method FindChild(parent: ID, part: string) returns (child: Option<ID>)
      requires Valid() && namespaces.Has(parent)
      ensures child.Some? ==> namespaces.Has(child.value) && paths[child.value - 1] == paths[parent - 1] + [part]
      ensures child.None? ==> paths[parent - 1] + [part] !in paths
    {
      var children := namespaces.Get(parent).data.children;
      var i := 0;
      while i < |children|
        invariant i <= |children|
        invariant forall j :: 0 <= j < i ==>
                    1 <= children[j] <= |paths| && namespaces.table[children[j] - 1].name != part
      {
        assert children[i] in children;
        ChildPath(namespaces.table, paths, parent, children[i]);
        if namespaces.Get(children[i]).name == part {
          return Some(children[i]);
        }
        i := i + 1;
      }
      NoChildNoPath(namespaces.table, paths, parent, part);
      child := None;
    }

    method AddChild(parent: ID, name: string) returns (child: ID)
      requires Valid() && namespaces.Has(parent)
      requires paths[parent - 1] + [name] !in paths
      modifies namespaces`table, namespaces`byName, `paths
      ensures Valid() && child == |paths|
      ensures paths == old(paths) + [old(paths)[parent - 1] + [name]]
      ensures Entries() == old(Entries())
    {
      child := namespaces.Insert(name, NamespaceData([], Some(parent)));
      var data := namespaces.Get(parent).data;
      namespaces.Update(parent, data.(children := data.children + [child]));
      WithChildIsTrie(old(namespaces.table), paths, parent, name);
      paths := paths + [paths[parent - 1] + [name]];
      EntriesKept(procs.table, old(paths), paths);
    }

    /** One turn of the loop in `ResolveNamespace`: to the child with a name, made if it is not there. */
    method Descend(parent: ID, part: string) returns (child: ID)
      requires Valid() && namespaces.Has(parent)
      modifies namespaces`table, namespaces`byName, `paths
      ensures Valid() && Entries() == old(Entries())
      ensures var p := old(paths)[parent - 1] + [part];
              && paths == (if p in old(paths) then old(paths) else old(paths) + [p])
              && namespaces.Has(child) && paths[child - 1] == p
    {
      var found := FindChild(parent, part);
      if found.None? {
        child := AddChild(parent, part);
      } else {
        child := found.value;
      }
    }

    /** The namespace a qualified name leads to from `ns`, created with those on the way where missing.
        None when the name has no parts; nothing changes then. */
    method ResolveNamespace(qn: QualifiedName, ns: ID) returns (id: Option<ID>)
      requires Valid() && namespaces.Has(ns)
      modifies namespaces`table, namespaces`byName, `paths
      ensures Valid() && Entries() == old(Entries())
      ensures old(paths) <= paths
      ensures match qn.NamespaceParts()
              case None => id == None && paths == old(paths)
              case Some(parts) =>
                && paths == AddPath(old(paths), BaseOf(old(paths)[ns - 1], qn), parts)
                && id.Some? && namespaces.Has(id.value)
                && Some(paths[id.value - 1]) == TargetPath(old(paths)[ns - 1], qn)
    {
      hide Components, EntriesOf, AddPath;
      if qn.NamespaceParts().None? {
        return None;
      }
      var parts := qn.NamespaceParts().value;
      var curID: ID := if qn.absolute then globalNamespaceID else ns;
      ghost var base := BaseOf(paths[ns - 1], qn);
      AddNoPart(paths, base);
      var i := 0;
      while i < |parts|
        invariant i <= |parts|
        invariant Valid() && Entries() == old(Entries())
        invariant old(paths) <= paths
        invariant namespaces.Has(curID) && paths[curID - 1] == base + parts[..i]
        invariant paths == AddPath(old(paths), base, parts[..i])
      {
        AddOnePart(old(paths), base, parts, i);
        curID := Descend(curID, parts[i]);
        i := i + 1;
      }
      assert parts[..|parts|] == parts;
      id := Some(curID);
    }

    // ----------------------------------------------------------------
    // Procs
    // ----------------------------------------------------------------

    /** The definitions a command name may mean in a namespace. Levels that are tried are created, which shows
        in `paths` and nowhere else. None when the name has no parts. */
    method FindProc(ns: ID, cmdName: string) returns (found: Option<seq<ID>>)
      requires Valid() && namespaces.Has(ns)
      modifies namespaces`table, namespaces`byName, `paths
      ensures Valid() && Entries() == old(Entries())
      ensures old(paths) <= paths
      ensures var qn := SplitName(cmdName);
              if qn.NamespaceParts().None? then found == None && paths == old(paths)
              else && found == Some(Candidates(old(Entries()), old(paths)[ns - 1], qn))
                   && paths == LookupPaths(old(paths), old(Entries()), old(paths)[ns - 1], qn)
      decreases ns
    {
      hide AddPath, Components, InNamespace;
      var qn := SplitName(cmdName);
      var targetNamespace := TargetOf(qn, ns);
      if targetNamespace.None? {
        return None;
      }
      var result := SelectInNamespace(qn.name, targetNamespace.value);
      ParentInTrie(namespaces.table, paths, ns);
      var parent := namespaces.Get(ns).data.parent;
      if result == [] && !qn.absolute && parent.Some? {
        found := FindProc(parent.value, cmdName);
      } else {
        found := Some(result);
      }
    }

    /** The namespace to look in: that of the caller when the name is a plain one. */
    method TargetOf(qn: QualifiedName, ns: ID) returns (id: Option<ID>)
      requires Valid() && namespaces.Has(ns)
      modifies namespaces`table, namespaces`byName, `paths
      ensures Valid() && Entries() == old(Entries())
      ensures old(paths) <= paths
      ensures match TargetPath(old(paths)[ns - 1], qn)
              case None => id == None && paths == old(paths)
              case Some(p) =>
                && paths == AddPath(old(paths), BaseOf(old(paths)[ns - 1], qn), qn.NamespaceParts().value)
                && id.Some? && namespaces.Has(id.value) && paths[id.value - 1] == p
    {
      if qn.absolute || qn.ns.Some? {
        id := ResolveNamespace(qn, ns);
      } else {
        assert paths[ns - 1] + [] == paths[ns - 1];
        id := Some(ns);
      }
    }

    /** The loop of `FindProc`: of the rows that the name index lists, those in one namespace. */
    method SelectInNamespace(name: string, ns: ID) returns (result: seq<ID>)
      requires Valid() && namespaces.Has(ns)
      ensures result == InNamespace(Entries(), paths[ns - 1], name)
    {
      hide InNamespace, IdsNamed;
      var range := procs.byName.EqualRange(name);
      assert procs.table[..|procs.table|] == procs.table;
      assert Entries()[..|procs.table|] == Entries();
      NamedInNamespace(procs.table, paths, ns, name, |procs.table|);
      result := [];
      var i := 0;
      while i < |range|
        invariant i <= |range|
        invariant result == WithParent(procs.table, range[..i], ns)
      {
        assert range[..i + 1][..i] == range[..i];
        if procs.Get(range[i]).data.parentNamespace == ns {
          result := result + [range[i]];
        }
        i := i + 1;
      }
      assert range[..|range|] == range;
    }

    /** `AddProcToIndex`; false when an argument has no elements or the proc's name no parts, and then nothing
        changes. */
    method AddProcToIndex(ns: ID, words: seq<Word>) returns (ok: bool)
      requires Valid() && namespaces.Has(ns) && |words| == 4
      modifies namespaces`table, namespaces`byName, `paths, procs
      ensures Valid()
      ensures old(paths) <= paths
      ensures var qn := SplitName(words[1].text);
              match if HasEmptyArgument(words[2]) then None else TargetPath(old(paths)[ns - 1], qn)
              case None => !ok && ViewOf() == old(ViewOf())
              case Some(p) =>
                && ok
                && paths == AddPath(old(paths), BaseOf(old(paths)[ns - 1], qn), qn.NamespaceParts().value)
                && Entries() == old(Entries()) + [ProcEntry(p, qn.name, ArityOf(words[2]))]
                && procs.references ==
                   old(procs.references) + [Reference(words[1].location, |old(procs.table)| + 1, DEFINITION)]
    {
      hide AddPath, Components, HasEmptyArgument, ArityOf, SplitName;
      var qn := SplitName(words[1].text);
      var arity;
      ok, arity := CountArguments(words[2]);
      if !ok {
        return;
      }
      var parent := TargetOf(qn, ns);
      if parent.None? {
        return false;
      }
      ghost var before := Entries();
      var id := procs.Insert(qn.name, ProcData(arity, parent.value));
      assert Entries() == before + [ProcEntry(paths[parent.value - 1], qn.name, arity)];
      AddCommandReference(words[1].location, id, DEFINITION);
      ok := true;
    }

    method AddCommandReference(location: SourceLocation, id: ID, kind: ReferenceType)
      requires Valid()
      modifies procs`references, procs`refsByID
      ensures Valid() && Entries() == old(Entries())
      ensures procs.references == old(procs.references) + [Reference(location, id, kind)]
    {
      procs.AddReference(Reference(location, id, kind));
    }

    /** The argument loop of `AddProcToIndex`. The test for a trailing `args` compares a name that is still empty,
        so no proc is ever variadic. `ok` is false when the first element of an argument is read that has none. */
    static method CountArguments(args: Word) returns (ok: bool, arity: Arity)
      ensures ok == !HasEmptyArgument(args)
      ensures ok ==> arity == ArityOf(args)
    {
      hide TextCount;
      var required, optional, variadic := 0, 0, false;
      if args.ListWord? {
        var i := 0;
        NoTextCounted();
        while i < |args.words|
          invariant i <= |args.words|
          invariant required == TextCount(args.words[..i]) % UINT_MODULUS
          invariant optional == (i - TextCount(args.words[..i])) % UINT_MODULUS
          invariant !variadic
          invariant forall j :: 0 <= j < i ==> !EmptyList(args.words[j])
        {
          OneMoreCounted(args.words, i);
          var argName := "";
          if args.words[i].TextWord? {
            var last := i + 1 == |args.words|;
            if argName == "args" && last {
              variadic := true;
            } else {
              WrapsAround(TextCount(args.words[..i]));
              required := (required + 1) % UINT_MODULUS;
            }
          } else {
            WrapsAround(i - TextCount(args.words[..i]));
            optional := (optional + 1) % UINT_MODULUS;
            if EmptyList(args.words[i]) {
              return false, Arity(required, optional, variadic);
            }
          }
          i := i + 1;
        }
        assert args.words[..|args.words|] == args.words;
      }
      ok, arity := true, Arity(required, optional, variadic);
    }

    // ----------------------------------------------------------------
    // Printed names
    // ----------------------------------------------------------------

    /** `GetPrintName` of a namespace: the names from it up to the global one, written the other way round. */
    method GetPrintName(ns: ID) returns (name: string)
      requires Valid() && namespaces.Has(ns)
      ensures name == Print(paths[ns - 1])
    {
      var row := namespaces.Get(ns);
      ParentInTrie(namespaces.table, paths, ns);
      if row.data.parent.None? {
        assert paths[ns - 1] == paths[0];
        return row.name;
      }
      assert HangsFromParent(namespaces.table, paths, ns - 1);
      name := PrintUpwards(row.name, row.data.parent.value);
    }

    /** `GetPrintName` of a proc. */
    method GetProcPrintName(id: ID) returns (name: string)
      requires Valid() && procs.Has(id)
      ensures name == Print(Entries()[id - 1].ns + [Entries()[id - 1].name])
    {
      var row := procs.Get(id);
      name := PrintUpwards(row.name, row.data.parentNamespace);
    }

    /** The common part: a name below namespace `parent`. */
    method PrintUpwards(name: string, parent: ID) returns (printed: string)
      requires Valid() && namespaces.Has(parent)
      ensures printed == Print(paths[parent - 1] + [name])
    {
      var parts := [name];
      var currID := Some(parent);
      while currID.Some?
        invariant currID.Some? ==> namespaces.Has(currID.value)
        invariant match currID
                  case Some(id) => paths[id - 1] + Reversed(parts) == paths[parent - 1] + [name]
                  case None => Reversed(parts) == [""] + (paths[parent - 1] + [name])
        decreases if currID.Some? then currID.value else 0
      {
        var curr := namespaces.Get(currID.value);
        ParentInTrie(namespaces.table, paths, currID.value);
        ghost var p := paths[currID.value - 1];
        if p == [] {
          assert currID.value == 1;
          assert p + Reversed(parts) == Reversed(parts);
        } else {
          assert HangsFromParent(namespaces.table, paths, currID.value - 1);
          assert p[..|p| - 1] + ([curr.name] + Reversed(parts)) == p + Reversed(parts);
        }
        parts := parts + [curr.name];
        currID := curr.data.parent;
      }
      printed := WriteReversed(parts);
      ghost var path := paths[parent - 1] + [name];
      JoinCons("", path);
      PrintIsJoin(path);
    }

    // ----------------------------------------------------------------
    // Finding a namespace by its printed name
    // ----------------------------------------------------------------

    /** `FindNamespace`, on names that it asserts to be absolute. `thrown` is set when the name has no parts. */
    method FindNamespace(nsName: string) returns (thrown: bool, found: Option<ID>)
      requires Valid()
      requires SplitName(nsName).absolute
      ensures thrown <==> SplitName(nsName).Parts().None?
      ensures !thrown ==>
                match found
                case Some(id) => namespaces.Has(id) && Some(paths[id - 1]) == SplitName(nsName).Parts()
                case None => SplitName(nsName).Parts().value !in paths
    {
      hide Components, LastSep;
      var qn := SplitName(nsName);
      if qn.Parts().None? {
        return true, None;
      }
      var parts := qn.Parts().value;
      var curID := globalNamespaceID;
      var i := 0;
      while i < |parts|
        invariant i <= |parts|
        invariant namespaces.Has(curID) && paths[curID - 1] == parts[..i]
      {
        assert parts[..i] + [parts[i]] == parts[..i + 1];
        var child := FindChild(curID, parts[i]);
        if child.None? {
          TriePathsWellFounded(namespaces.table, paths);
          if parts in paths {
            PrefixesExist(paths, parts, i + 1);
          }
          return false, None;
        }
        curID := child.value;
        i := i + 1;
      }
      assert parts[..|parts|] == parts;
      return false, Some(curID);
    }

    /** Printing a namespace and finding it again gives the same namespace exactly when its path is recoverable. */
    method FindPrinted(ns: ID) returns (same: bool)
      requires Valid() && namespaces.Has(ns)
      ensures same <==> Recoverable(paths[ns - 1])
    {
      var name := GetPrintName(ns);
      PrintThenSplit(paths[ns - 1]);
      PrintIsAbsolute(paths[ns - 1]);
      var thrown, found := FindNamespace(name);
      same := !thrown && found == Some(ns);
      if !thrown && found.Some? && found.value != ns {
        assert paths[found.value - 1] != paths[ns - 1];
      }
    }
  }

  lemma AddNoPart(paths: seq<Path>, base: Path)
    ensures AddPath(paths, base, []) == paths && base + [] == base
  {
  }

  lemma AddOnePart(paths: seq<Path>, base: Path, parts: seq<string>, i: nat)
    requires i < |parts|
    ensures base + parts[..i] + [parts[i]] == base + parts[..i + 1]
    ensures var before, p := AddPath(paths, base, parts[..i]), base + parts[..i + 1];
            AddPath(paths, base, parts[..i + 1]) == if p in before then before else before + [p]
  {
    assert parts[..i + 1][..i] == parts[..i];
  }

  lemma NoTextCounted()
    ensures TextCount([]) == 0
  {
  }

  lemma OneMoreCounted(words: seq<Word>, i: nat)
    requires i < |words|
    ensures TextCount(words[..i + 1]) == TextCount(words[..i]) + if words[i].TextWord? then 1 else 0
  {
    assert words[..i + 1][..i] == words[..i];
  }

  lemma WrapsAround(n: nat)
    ensures (n % UINT_MODULUS + 1) % UINT_MODULUS == (n + 1) % UINT_MODULUS
  {
  }

  lemma PrintIsAbsolute(p: Path)
    ensures SplitName(Print(p)).absolute
  {
    if p != [] {
      PrintIsJoin(p);
      assert SepAt(Print(p), 0);
    }
  }

  function Reversed(parts: seq<string>): seq<string> {
    if parts == [] then [] else [parts[|parts| - 1]] + Reversed(parts[..|parts| - 1])
  }

  /** The stream loop of `GetPrintName`, last part first. */
  method WriteReversed(parts: seq<string>) returns (o: string)
    requires parts != []
    ensures o == Join(Reversed(parts))
  {
    hide Join, Reversed, JoinRest;
    o := "";
    var i := |parts|;
    while i > 0
      invariant 0 <= i <= |parts|
      invariant i == |parts| ==> o == ""
      invariant i < |parts| ==> o + JoinRest(Reversed(parts[..i])) == Join(Reversed(parts))
    {
      ReversedFrom(parts, i);
      if i != |parts| {
        assert o + (SEP + (parts[i - 1] + JoinRest(Reversed(parts[..i - 1])))) ==
               o + SEP + parts[i - 1] + JoinRest(Reversed(parts[..i - 1]));
        o := o + SEP;
      }
      o := o + parts[i - 1];
      i := i - 1;
    }
    assert parts[..0] == [];
    ReversedNothing();
  }

  /** What follows a first component when a list is joined. */
  function JoinRest(rest: seq<string>): string {
    if rest == [] then "" else SEP + Join(rest)
  }

  lemma ReversedNothing()
    ensures Reversed([]) == [] && JoinRest([]) == ""
  {
  }

  lemma ReversedFrom(parts: seq<string>, i: nat)
    requires 0 < i <= |parts|
    ensures Join(Reversed(parts[..i])) == parts[i - 1] + JoinRest(Reversed(parts[..i - 1]))
    ensures JoinRest(Reversed(parts[..i])) == SEP + (parts[i - 1] + JoinRest(Reversed(parts[..i - 1])))
    ensures parts[..|parts|] == parts
  {
    assert parts[..i][..i - 1] == parts[..i - 1];
    JoinCons(parts[i - 1], Reversed(parts[..i - 1]));
  }

  lemma JoinCons(first: string, rest: seq<string>)
    ensures Join([first] + rest) == first + JoinRest(rest)
  {
    assert ([first] + rest)[1..] == rest;
    if rest != [] {
      assert first + SEP + Join(rest) == first + (SEP + Join(rest));
    }
  }

  function WithParent(table: seq<Row<ProcData>>, ids: seq<ID>, ns: ID): seq<ID> {
    if ids == [] then []
    else
      var n := |ids| - 1;
      WithParent(table, ids[..n], ns) +
      if 1 <= ids[n] <= |table| && table[ids[n] - 1].data.parentNamespace == ns then [ids[n]] else []
  }

  /** Selecting by namespace id among the rows with a name is selecting by name and path. */
  lemma {:induction false} NamedInNamespace(table: seq<Row<ProcData>>, paths: seq<Path>, ns: ID, name: string, n: nat)
    requires n <= |table| && ParentsExist(table, |paths|) && 1 <= ns <= |paths|
    requires forall i :: 0 <= i < |table| ==> table[i].id == i + 1
    requires forall i, j :: 0 <= i < j < |paths| ==> paths[i] != paths[j]
    ensures WithParent(table, IdsNamed(table[..n], name), ns) ==
            InNamespace(EntriesOf(table, paths)[..n], paths[ns - 1], name)
    ensures forall i :: 0 <= i < |IdsNamed(table[..n], name)| ==> 1 <= IdsNamed(table[..n], name)[i] <= n
  {
    hide EntriesOf, IdsNamed, InNamespace, WithParent;
    var entries, p := EntriesOf(table, paths), paths[ns - 1];
    if n == 0 {
      NothingNamed(table, entries, ns, p, name);
    } else {
      var k := n - 1;
      NamedInNamespace(table, paths, ns, name, k);
      EntryMatches(table, paths, k);
      assert entries[k].ns == p <==> table[k].data.parentNamespace == ns;
      OneMoreNamed(table, entries, k, ns, p, name);
    }
  }

  lemma NothingNamed(table: seq<Row<ProcData>>, entries: seq<ProcEntry>, ns: ID, p: Path, name: string)
    ensures IdsNamed(table[..0], name) == [] && WithParent(table, [], ns) == []
    ensures InNamespace(entries[..0], p, name) == []
  {
  }

  /** One row more, and its entry. */
  lemma OneMoreNamed(table: seq<Row<ProcData>>, entries: seq<ProcEntry>, k: nat, ns: ID, p: Path, name: string)
    requires k < |table| == |entries| && table[k].id == k + 1 && entries[k].name == table[k].name
    ensures var here := table[k].name == name && table[k].data.parentNamespace == ns;
            WithParent(table, IdsNamed(table[..k + 1], name), ns) ==
            WithParent(table, IdsNamed(table[..k], name), ns) + if here then [k + 1] else []
    ensures IdsNamed(table[..k + 1], name) ==
            IdsNamed(table[..k], name) + if table[k].name == name then [k + 1] else []
    ensures InNamespace(entries[..k + 1], p, name) ==
            InNamespace(entries[..k], p, name) + if entries[k].ns == p && entries[k].name == name then [k + 1] else []
  {
    assert table[..k + 1][..k] == table[..k] && entries[..k + 1][..k] == entries[..k];
    var before := IdsNamed(table[..k], name);
    if table[k].name == name {
      assert (before + [k + 1])[..|before|] == before;
    } else {
      assert before + [] == before;
    }
  }

  lemma EntryMatches(table: seq<Row<ProcData>>, paths: seq<Path>, k: nat)
    requires ParentsExist(table, |paths|) && k < |table|
    ensures var entries, parent := EntriesOf(table, paths), table[k].data.parentNamespace;
            && |entries| == |table| && 1 <= parent <= |paths|
            && entries[k] == ProcEntry(paths[parent - 1], table[k].name, table[k].data.arity)
  {
  }

  /** A namespace has a parent exactly when its path is not the global one, and then the parent has the path
      without its last component. */
  lemma ParentInTrie(table: NamespaceTable, paths: seq<Path>, ns: ID)
    requires IsTrie(table, paths) && 1 <= ns <= |table|
    ensures var parent := table[ns - 1].data.parent;
            && (parent.Some? <==> paths[ns - 1] != [])
            && (parent.Some? ==> (1 <= parent.value < ns &&
                                  paths[parent.value - 1] == paths[ns - 1][..|paths[ns - 1]| - 1]))
  {
    if ns > 1 {
      assert HangsFromParent(table, paths, ns - 1);
    }
  }
}
