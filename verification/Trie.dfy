/** The namespace table of src/analyzer/index.cpp as a trie: rows linked by id in both directions. */
module Trie {
  import opened Options
  import opened Names
  import opened Database
  import opened ResolutionLaws

  datatype NamespaceData = NamespaceData(children: seq<ID>, parent: Option<ID>)

  type NamespaceTable = seq<Row<NamespaceData>>

  const GLOBAL: ID := 1

  /** Row i denotes paths[i]: row 0 the global namespace, every other row its parent's path and its own name. */
  ghost predicate IsTrie(table: NamespaceTable, paths: seq<Path>) {
    && |table| == |paths| >= 1
    && table[0].data.parent == None && table[0].name == "" && paths[0] == []
    && (forall i :: 1 <= i < |table| ==> HangsFromParent(table, paths, i))
    && (forall i :: 0 <= i < |table| ==> ChildrenPointBack(table, i))
    && (forall i, j :: 0 <= i < j < |paths| ==> paths[i] != paths[j])
  }

  /** A row's parent comes before it and lists it as a child. */
  ghost predicate HangsFromParent(table: NamespaceTable, paths: seq<Path>, i: nat)
    requires |table| == |paths| && i < |table|
  {
    var parent := table[i].data.parent;
    && parent.Some? && 1 <= parent.value <= i
    && paths[i] == paths[parent.value - 1] + [table[i].name]
    && i + 1 in table[parent.value - 1].data.children
  }

  ghost predicate ChildrenPointBack(table: NamespaceTable, i: nat)
    requires i < |table|
  {
    && (forall c :: c in table[i].data.children ==> i + 1 < c <= |table| && table[c - 1].data.parent == Some(i + 1))
    && (forall j, k :: 0 <= j < k < |table[i].data.children| ==> table[i].data.children[j] != table[i].data.children[k])
  }

  /** The table with a new, empty namespace added under `parent`. */
  function WithChild(table: NamespaceTable, parent: ID, name: string): NamespaceTable
    requires 1 <= parent <= |table|
  {
    var id := |table| + 1;
    var grown := table + [Row(id, name, NamespaceData([], Some(parent)))];
    var row := table[parent - 1];
    grown[parent - 1 := row.(data := row.data.(children := row.data.children + [id]))]
  }

  lemma WithChildIsTrie(table: NamespaceTable, paths: seq<Path>, parent: ID, name: string)
    requires IsTrie(table, paths) && 1 <= parent <= |table|
    requires paths[parent - 1] + [name] !in paths
    ensures IsTrie(WithChild(table, parent, name), paths + [paths[parent - 1] + [name]])
  {
    var grown := WithChild(table, parent, name);
    var after := paths + [paths[parent - 1] + [name]];
    var n := |table|;
    forall i | 1 <= i < |grown| ensures HangsFromParent(grown, after, i) {
      if i < n {
        assert HangsFromParent(table, paths, i);
      } else {
        assert grown[parent - 1].data.children[|grown[parent - 1].data.children| - 1] == n + 1;
      }
    }
    forall i | 0 <= i < |grown| ensures ChildrenPointBack(grown, i) {
      if i < n {
        assert ChildrenPointBack(table, i);
        if i == parent - 1 {
          GrownChildrenPointBack(table, parent, name);
        }
      }
    }
    forall i, j | 0 <= i < j < |after| ensures after[i] != after[j] {
      assert paths[i] in paths;
    }
  }

  lemma GrownChildrenPointBack(table: NamespaceTable, parent: ID, name: string)
    requires 1 <= parent <= |table| && ChildrenPointBack(table, parent - 1)
    ensures ChildrenPointBack(WithChild(table, parent, name), parent - 1)
  {
    var children := table[parent - 1].data.children;
    var grown := children + [|table| + 1];
    assert WithChild(table, parent, name)[parent - 1].data.children == grown;
    forall j, k | 0 <= j < k < |grown| ensures grown[j] != grown[k] {
      assert children[j] in children;
    }
  }

  /** A child with a given name denotes the parent's path extended by that name. */
  lemma ChildPath(table: NamespaceTable, paths: seq<Path>, parent: ID, child: ID)
    requires IsTrie(table, paths) && 1 <= parent <= |table| && child in table[parent - 1].data.children
    ensures parent < child <= |table| && paths[child - 1] == paths[parent - 1] + [table[child - 1].name]
  {
    assert ChildrenPointBack(table, parent - 1);
    assert HangsFromParent(table, paths, child - 1);
  }

  /** When no child bears a name, the extended path does not exist. */
  lemma NoChildNoPath(table: NamespaceTable, paths: seq<Path>, parent: ID, name: string)
    requires IsTrie(table, paths) && 1 <= parent <= |table|
    requires forall i :: 0 <= i < |table| && table[i].name == name ==> i + 1 !in table[parent - 1].data.children
    ensures paths[parent - 1] + [name] !in paths
  {
    var p := paths[parent - 1] + [name];
    forall i | 0 <= i < |paths| ensures paths[i] != p {
      if i >= 1 {
        assert HangsFromParent(table, paths, i);
        var q := table[i].data.parent.value;
        assert paths[i][..|paths[i]| - 1] == paths[q - 1] && paths[i][|paths[i]| - 1] == table[i].name;
        assert p[..|p| - 1] == paths[parent - 1] && p[|p| - 1] == name;
      }
    }
  }

  /** Siblings have distinct names. */
  lemma SiblingsDiffer(table: NamespaceTable, paths: seq<Path>, parent: ID, a: ID, b: ID)
    requires IsTrie(table, paths) && 1 <= parent <= |table|
    requires 1 <= a && 1 <= b && a != b
    requires a in table[parent - 1].data.children && b in table[parent - 1].data.children
    ensures a <= |table| && b <= |table| && table[a - 1].name != table[b - 1].name
  {
    ChildPath(table, paths, parent, a);
    ChildPath(table, paths, parent, b);
  }

  /** The paths of a trie are well founded: its ids are in bijection with a prefix-closed set of paths. */
  lemma TriePathsWellFounded(table: NamespaceTable, paths: seq<Path>)
    requires IsTrie(table, paths)
    ensures WellFounded(paths)
  {
    assert paths[..|paths|] == paths;
    TriePrefixWellFounded(table, paths, |paths|);
  }

  lemma {:induction false} TriePrefixWellFounded(table: NamespaceTable, paths: seq<Path>, n: nat)
    requires IsTrie(table, paths) && 1 <= n <= |paths|
    ensures WellFounded(paths[..n])
  {
    if n > 1 {
      TriePrefixWellFounded(table, paths, n - 1);
      assert HangsFromParent(table, paths, n - 1);
      var parent := table[n - 1].data.parent.value;
      assert paths[n - 1][..|paths[n - 1]| - 1] == paths[parent - 1] == paths[..n - 1][parent - 1];
      assert paths[..n][..n - 1] == paths[..n - 1];
    }
  }
}
