/** What it means for a command name to resolve to a proc, said of the procs there are and not of the search. */
module Lookup {
  import opened Options
  import opened Names
  import opened Database
  import opened BestFit
  import opened Resolution

  // ------------------------------------------------------------------
  // Lookup by levels
  // ------------------------------------------------------------------

  /** The definitions found `up` levels above `base`. */
  function AtLevel(procs: seq<ProcEntry>, base: Path, qn: QualifiedName, up: nat): seq<ID>
    requires up <= |base| && qn.NamespaceParts().Some?
  {
    InNamespace(procs, TargetPath(base[..|base| - up], qn).value, qn.name)
  }

  function Levels(base: Path, qn: QualifiedName): nat {
    if qn.absolute then 0 else |base|
  }

  /** A lookup gives the definitions of the nearest level that has any, and nothing when no level does. */
  lemma {:induction false} CandidatesAreNearest(procs: seq<ProcEntry>, base: Path, qn: QualifiedName, up: nat)
    requires up <= Levels(base, qn) && qn.NamespaceParts().Some?
    requires forall k :: 0 <= k < up ==> AtLevel(procs, base, qn, k) == []
    requires AtLevel(procs, base, qn, up) != [] || up == Levels(base, qn)
    ensures Candidates(procs, base, qn) == AtLevel(procs, base, qn, up)
    decreases up
  {
    assert base[..|base| - 0] == base;
    if up > 0 {
      assert AtLevel(procs, base, qn, 0) == [];
      var parent := base[..|base| - 1];
      forall k | 0 <= k < up ensures AtLevel(procs, parent, qn, k) == AtLevel(procs, base, qn, k + 1) {
        assert parent[..|parent| - k] == base[..|base| - (k + 1)];
      }
      forall k | 0 <= k < up - 1 ensures AtLevel(procs, parent, qn, k) == [] {
        assert AtLevel(procs, base, qn, k + 1) == [];
      }
      CandidatesAreNearest(procs, parent, qn, up - 1);
    }
  }

  /** A candidate is a proc with the tail of the name, in the namespace the name leads to from `base` or,
      for a name that is not absolute, from some namespace around it. */
  lemma {:induction false} CandidatesAreVisible(procs: seq<ProcEntry>, base: Path, qn: QualifiedName, id: ID)
    returns (up: nat)
    requires qn.NamespaceParts().Some? && id in Candidates(procs, base, qn)
    ensures up <= Levels(base, qn) && 1 <= id <= |procs|
    ensures procs[id - 1].name == qn.name
    ensures TargetPath(base[..|base| - up], qn) == Some(procs[id - 1].ns)
    decreases |base|
  {
    InNamespaceInRange(procs, TargetPath(base, qn).value, qn.name);
    assert base[..|base| - 0] == base;
    if InNamespace(procs, TargetPath(base, qn).value, qn.name) == [] && !qn.absolute && base != [] {
      var parent := base[..|base| - 1];
      up := CandidatesAreVisible(procs, parent, qn, id);
      assert parent[..|parent| - up] == base[..|base| - (up + 1)];
      up := up + 1;
    } else {
      up := 0;
    }
  }

  // ------------------------------------------------------------------
  // The definition a name resolves to
  // ------------------------------------------------------------------

  /** A proc bears the name, in the namespace that the name leads to from `up` levels above `base`. */
  predicate HeldAt(proc: ProcEntry, base: Path, qn: QualifiedName, up: nat)
    requires up <= |base|
  {
    proc.name == qn.name && TargetPath(base[..|base| - up], qn) == Some(proc.ns)
  }

  ghost predicate NoneHeldAt(procs: seq<ProcEntry>, base: Path, qn: QualifiedName, up: nat)
    requires up <= |base|
  {
    forall i :: 0 <= i < |procs| ==> !HeldAt(procs[i], base, qn, up)
  }

  /** Exactly the ids of the procs held at a level, in increasing order. */
  ghost predicate ListsLevel(procs: seq<ProcEntry>, base: Path, qn: QualifiedName, up: nat, ids: seq<ID>)
    requires up <= |base|
  {
    && (forall i, j :: 0 <= i < j < |ids| ==> ids[i] < ids[j])
    && forall id :: id in ids <==> 1 <= id <= |procs| && HeldAt(procs[id - 1], base, qn, up)
  }

  /** Of the procs listed, the one at k fits the number of arguments best. */
  ghost predicate FitsBest(procs: seq<ProcEntry>, ids: seq<ID>, args: nat, k: nat)
    requires forall id :: id in ids ==> 1 <= id <= |procs|
  {
    IsBestFit(seq(|ids|, i requires 0 <= i < |ids| => assert ids[i] in ids; procs[ids[i] - 1].arity), args, Some(k))
  }

  ghost predicate ResolvesAt(procs: seq<ProcEntry>, base: Path, qn: QualifiedName, args: nat, id: ID, up: nat,
                             ids: seq<ID>, k: nat)
  {
    && up <= Levels(base, qn)
    && (forall j :: 0 <= j < up ==> NoneHeldAt(procs, base, qn, j))
    && ListsLevel(procs, base, qn, up, ids)
    && k < |ids| && ids[k] == id && FitsBest(procs, ids, args, k)
  }

  /** A name resolves to the best fit among the procs held at the nearest level that holds any, and to nothing when
      no level does. */
  ghost predicate Resolves(procs: seq<ProcEntry>, base: Path, name: string, args: nat, result: Option<ID>) {
    var qn := SplitName(name);
    match result
    case None => forall up :: 0 <= up <= Levels(base, qn) ==> NoneHeldAt(procs, base, qn, up)
    case Some(id) => exists up: nat, ids: seq<ID>, k: nat :: ResolvesAt(procs, base, qn, args, id, up, ids, k)
  }

  lemma LevelLists(procs: seq<ProcEntry>, base: Path, qn: QualifiedName, up: nat)
    requires up <= |base| && qn.NamespaceParts().Some?
    ensures ListsLevel(procs, base, qn, up, AtLevel(procs, base, qn, up))
    ensures AtLevel(procs, base, qn, up) == [] <==> NoneHeldAt(procs, base, qn, up)
  {
    hide InNamespace;
    var target, ids := TargetPath(base[..|base| - up], qn).value, AtLevel(procs, base, qn, up);
    InNamespaceInRange(procs, target, qn.name);
    if ids != [] {
      assert ids[0] in ids;
    }
    if i :| 0 <= i < |procs| && HeldAt(procs[i], base, qn, up) {
      assert i + 1 in ids;
    }
  }

  lemma {:induction false} NearestLevel(procs: seq<ProcEntry>, base: Path, qn: QualifiedName) returns (up: nat)
    requires qn.NamespaceParts().Some?
    ensures up <= Levels(base, qn)
    ensures forall j :: 0 <= j < up ==> NoneHeldAt(procs, base, qn, j)
    ensures !NoneHeldAt(procs, base, qn, up) || up == Levels(base, qn)
    ensures Candidates(procs, base, qn) == AtLevel(procs, base, qn, up)
  {
    up := 0;
    LevelLists(procs, base, qn, 0);
    while up < Levels(base, qn) && NoneHeldAt(procs, base, qn, up)
      invariant up <= Levels(base, qn)
      invariant forall j :: 0 <= j < up ==> NoneHeldAt(procs, base, qn, j)
      decreases Levels(base, qn) - up
    {
      up := up + 1;
    }
    forall j | 0 <= j <= up ensures AtLevel(procs, base, qn, j) == [] <==> NoneHeldAt(procs, base, qn, j) {
      LevelLists(procs, base, qn, j);
    }
    CandidatesAreNearest(procs, base, qn, up);
  }

  /** What the search finds is what the name resolves to. */
  lemma ResolveMeans(procs: seq<ProcEntry>, base: Path, name: string, args: nat)
    requires SplitName(name).NamespaceParts().Some?
    ensures Resolves(procs, base, name, args, Resolve(procs, base, name, args))
  {
    hide SplitName, AtLevel, Candidates, InNamespace, IsBestFit;
    var qn := SplitName(name);
    var up := NearestLevel(procs, base, qn);
    LevelLists(procs, base, qn, up);
    CandidatesInRange(procs, base, qn);
    var ids := Candidates(procs, base, qn);
    BestFitClosedForm(AritiesOf(procs, ids), args);
    if ids != [] {
      var k := BestFitOf(AritiesOf(procs, ids), args).value;
      assert seq(|ids|, i requires 0 <= i < |ids| => assert ids[i] in ids; procs[ids[i] - 1].arity) ==
             AritiesOf(procs, ids);
      assert FitsBest(procs, ids, args, k);
      assert ResolvesAt(procs, base, qn, args, ids[k], up, ids, k);
    }
  }

  lemma {:induction false} SameIncreasing(a: seq<ID>, b: seq<ID>)
    requires forall i, j :: 0 <= i < j < |a| ==> a[i] < a[j]
    requires forall i, j :: 0 <= i < j < |b| ==> b[i] < b[j]
    requires forall id :: id in a <==> id in b
    ensures a == b
  {
    assert b != [] ==> b[0] in b;
    if a != [] {
      assert a[0] in b;
      var n, m := |a| - 1, |b| - 1;
      assert a[n] in b && b[m] in a;
      assert a[n] == b[m];
      forall id ensures id in a[..n] <==> id in b[..m] {
        if id in a[..n] {
          assert id in a && id != a[n];
        }
        if id in b[..m] {
          assert id in b && id != b[m];
        }
      }
      SameIncreasing(a[..n], b[..m]);
    }
  }

  /** A name resolves in one way only. */
  lemma ResolvesOnce(procs: seq<ProcEntry>, base: Path, name: string, args: nat, a: Option<ID>, b: Option<ID>)
    requires Resolves(procs, base, name, args, a) && Resolves(procs, base, name, args, b)
    ensures a == b
  {
    hide SplitName, ResolvesAt;
    var qn := SplitName(name);
    if a.Some? && b.Some? {
      var up, ids, k :| ResolvesAt(procs, base, qn, args, a.value, up, ids, k);
      var up', ids', k' :| ResolvesAt(procs, base, qn, args, b.value, up', ids', k');
      SameResolution(procs, base, qn, args, a.value, up, ids, k, b.value, up', ids', k');
    } else if a.Some? {
      var up, ids, k :| ResolvesAt(procs, base, qn, args, a.value, up, ids, k);
      HeldAtNearest(procs, base, qn, args, a.value, up, ids, k);
    } else if b.Some? {
      var up, ids, k :| ResolvesAt(procs, base, qn, args, b.value, up, ids, k);
      HeldAtNearest(procs, base, qn, args, b.value, up, ids, k);
    }
  }

  lemma SameResolution(procs: seq<ProcEntry>, base: Path, qn: QualifiedName, args: nat, id: ID, up: nat, ids: seq<ID>,
                       k: nat, id': ID, up': nat, ids': seq<ID>, k': nat)
    requires ResolvesAt(procs, base, qn, args, id, up, ids, k) && ResolvesAt(procs, base, qn, args, id', up', ids', k')
    ensures id == id'
  {
    hide HeldAt, IsBestFit;
    HeldAtNearest(procs, base, qn, args, id, up, ids, k);
    HeldAtNearest(procs, base, qn, args, id', up', ids', k');
    assert up == up';
    SameIncreasing(ids, ids');
    BestFitOnce(seq(|ids|, i requires 0 <= i < |ids| => assert ids[i] in ids; procs[ids[i] - 1].arity), args, k, k');
  }

  lemma BestFitOnce(arities: seq<Arity>, args: nat, a: nat, b: nat)
    requires IsBestFit(arities, args, Some(a)) && IsBestFit(arities, args, Some(b))
    ensures a == b
  {
  }

  lemma HeldAtNearest(procs: seq<ProcEntry>, base: Path, qn: QualifiedName, args: nat, id: ID, up: nat, ids: seq<ID>,
                      k: nat)
    requires ResolvesAt(procs, base, qn, args, id, up, ids, k)
    ensures up <= Levels(base, qn) && !NoneHeldAt(procs, base, qn, up)
  {
    assert ids[0] in ids;
  }
}
