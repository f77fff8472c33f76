/** The row tables of src/analyzer/db.cpp: dense ids, a secondary index by name and a reference list indexed by id. */
module Database {
  import opened SourceFiles

  type ID = nat

  datatype ReferenceType = USAGE | DEFINITION | DECLARATION

  datatype Row<+T> = Row(id: ID, name: string, data: T)

  datatype Reference = Reference(location: SourceLocation, id: ID, kind: ReferenceType)

  /** `std::multimap`: the values of a key in the order they were put in. */
  datatype Multimap<!K, V> = Multimap(entries: map<K, seq<V>>) {

    function EqualRange(k: K): seq<V> {
      if k in entries then entries[k] else []
    }

    function Emplace(k: K, v: V): Multimap<K, V> {
      Multimap(entries[k := EqualRange(k) + [v]])
    }
  }

  // ------------------------------------------------------------------
  // Full scans that the secondary indexes stand for
  // ------------------------------------------------------------------

  /** Ids of the rows with a name, in table order. */
  function IdsNamed<T>(table: seq<Row<T>>, name: string): seq<ID> {
    if table == [] then []
    else
      var n := |table| - 1;
      IdsNamed(table[..n], name) + if table[n].name == name then [table[n].id] else []
  }

  /** Positions in the reference list of the references to an id, in list order. */
  function PositionsOf(references: seq<Reference>, id: ID): seq<nat> {
    if references == [] then []
    else
      var n := |references| - 1;
      PositionsOf(references[..n], id) + if references[n].id == id then [n] else []
  }

  /** References to an id, in list order. */
  function ReferencesTo(references: seq<Reference>, id: ID): seq<Reference> {
    if references == [] then []
    else
      var n := |references| - 1;
      ReferencesTo(references[..n], id) + if references[n].id == id then [references[n]] else []
  }

  lemma {:induction false} IdsNamedAfterUpdate<T>(table: seq<Row<T>>, k: nat, row: Row<T>, name: string)
    requires k < |table| && row.id == table[k].id && row.name == table[k].name
    ensures IdsNamed(table[k := row], name) == IdsNamed(table, name)
  {
    var n := |table| - 1;
    if k < n {
      assert table[k := row][..n] == table[..n][k := row];
      IdsNamedAfterUpdate(table[..n], k, row, name);
    } else {
      assert table[k := row][..n] == table[..n];
    }
  }

  /** The ids listed under a name are exactly those of the rows that bear it, each once and in increasing order. */
  lemma {:induction false} IdsNamedListsMatchingRows<T>(table: seq<Row<T>>, name: string)
    requires forall i :: 0 <= i < |table| ==> table[i].id == i + 1
    ensures forall id :: id in IdsNamed(table, name) <==> 1 <= id <= |table| && table[id - 1].name == name
    ensures forall i, j :: 0 <= i < j < |IdsNamed(table, name)| ==> IdsNamed(table, name)[i] < IdsNamed(table, name)[j]
  {
    if table != [] {
      var n := |table| - 1;
      IdsNamedListsMatchingRows(table[..n], name);
      var before := IdsNamed(table[..n], name);
      assert forall i :: 0 <= i < |before| ==> before[i] in before;
    }
  }

  /** The positions listed for an id are exactly those of its references, each once and in increasing order,
      and reading the list at those positions gives the references themselves. */
  lemma {:induction false} PositionsListReferences(references: seq<Reference>, id: ID)
    ensures forall p :: p in PositionsOf(references, id) <==> 0 <= p < |references| && references[p].id == id
    ensures forall i, j :: 0 <= i < j < |PositionsOf(references, id)| ==>
              PositionsOf(references, id)[i] < PositionsOf(references, id)[j]
    ensures |PositionsOf(references, id)| == |ReferencesTo(references, id)|
    ensures forall i :: 0 <= i < |PositionsOf(references, id)| ==>
              && PositionsOf(references, id)[i] < |references|
              && ReferencesTo(references, id)[i] == references[PositionsOf(references, id)[i]]
  {
    if references != [] {
      var n := |references| - 1;
      PositionsListReferences(references[..n], id);
    }
  }

  class RefRecord<T> {
    var table: seq<Row<T>>
    var byName: Multimap<string, ID>
    var references: seq<Reference>
    var refsByID: Multimap<ID, nat>

    /** The index by name agrees with a full scan of some rows. */
    ghost predicate Names(rows: seq<Row<T>>)
      reads `byName
    {
      forall name :: byName.EqualRange(name) == IdsNamed(rows, name)
    }

    /** Ids are dense, and both secondary indexes agree with full scans. */
    ghost predicate Valid()
      reads this
    {
      && (forall i :: 0 <= i < |table| ==> table[i].id == i + 1)
      && Names(table)
      && (forall id :: refsByID.EqualRange(id) == PositionsOf(references, id))
    }

    predicate Has(id: ID)
      reads this
    {
      1 <= id <= |table|
    }

    constructor ()
      ensures Valid() && table == [] && references == []
    {
      table, byName := [], Multimap(map[]);
      references, refsByID := [], Multimap(map[]);
    }

    method Insert(name: string, data: T) returns (id: ID)
      requires Valid()
      modifies `table, `byName
      ensures Valid() && Has(id)
      ensures id == |old(table)| + 1
      ensures table == old(table) + [Row(id, name, data)]
    {
      id := |table| + 1;
      var row := Row(id, name, data);
      table := table + [row];
      UpdateKeys(row, old(table));
    }

    /** The range of the row's name gains its id at the end and no other range changes; so an index of the rows
        before becomes one of the rows with this one after them. */
    method UpdateKeys(row: Row<T>, ghost before: seq<Row<T>>)
      modifies `byName
      ensures byName.EqualRange(row.name) == old(byName).EqualRange(row.name) + [row.id]
      ensures forall name :: name != row.name ==> byName.EqualRange(name) == old(byName).EqualRange(name)
      ensures old(Names(before)) ==> Names(before + [row])
    {
      byName := byName.Emplace(row.name, row.id);
      assert (before + [row])[..|before|] == before;
    }

    /** `Get` aborts on an id that was never handed out. */
    function Get(id: ID): Row<T>
      requires Has(id)
      reads this
    {
      table[id - 1]
    }

    /** A change made through the reference that `Get` returns; names and ids never change. */
    method Update(id: ID, data: T)
      requires Valid() && Has(id)
      modifies `table
      ensures Valid()
      ensures table == old(table)[id - 1 := old(table)[id - 1].(data := data)]
    {
      table := table[id - 1 := table[id - 1].(data := data)];
      forall name ensures byName.EqualRange(name) == IdsNamed(table, name) {
        IdsNamedAfterUpdate(old(table), id - 1, table[id - 1], name);
      }
    }

    method AddReference(r: Reference)
      requires Valid()
      modifies `references, `refsByID
      ensures Valid()
      ensures references == old(references) + [r]
    {
      var pos := |references|;
      references := references + [r];
      refsByID := refsByID.Emplace(r.id, pos);
      assert references[..pos] == old(references);
    }

    /** The references to an id as a request handler gathers them: over the index, not over the list. */
    method Gather(id: ID, definitionsOnly: bool) returns (found: seq<Reference>)
      requires Valid()
      ensures found == if definitionsOnly then Definitions(ReferencesTo(references, id))
                       else ReferencesTo(references, id)
    {
      hide Definitions, ReferencesTo, PositionsOf;
      PositionsListReferences(references, id);
      var range := refsByID.EqualRange(id);
      ghost var all := ReferencesTo(references, id);
      NoneGathered(all, definitionsOnly);
      found := [];
      var i := 0;
      while i < |range|
        invariant i <= |range|
        invariant found == Gathered(all, i, definitionsOnly)
      {
        var r := references[range[i]];
        OneMoreGathered(all, i, definitionsOnly);
        if !definitionsOnly || r.kind == DEFINITION {
          found := found + [r];
        }
        i := i + 1;
      }
      assert all[..|all|] == all;
    }
  }

  /** What the first few references contribute to an answer. */
  function Gathered(all: seq<Reference>, n: nat, definitionsOnly: bool): seq<Reference>
    requires n <= |all|
  {
    if definitionsOnly then Definitions(all[..n]) else all[..n]
  }

  lemma NoneGathered(all: seq<Reference>, definitionsOnly: bool)
    ensures Gathered(all, 0, definitionsOnly) == []
  {
  }

  lemma OneMoreGathered(all: seq<Reference>, n: nat, definitionsOnly: bool)
    requires n < |all|
    ensures Gathered(all, n + 1, definitionsOnly) ==
            Gathered(all, n, definitionsOnly) + if !definitionsOnly || all[n].kind == DEFINITION then [all[n]] else []
  {
    assert all[..n + 1][..n] == all[..n];
  }

  /** The definitions among some references. */
  function Definitions(references: seq<Reference>): seq<Reference> {
    if references == [] then []
    else
      var n := |references| - 1;
      Definitions(references[..n]) + if references[n].kind == DEFINITION then [references[n]] else []
  }
}
