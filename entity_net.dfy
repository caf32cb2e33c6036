/** The entity-net logic behind `SqlBoxContext.transfer` and
    `buildRootEntity`: which mapping is the root, and which row of a query
    result supplies each root entity. */
module EntityNet {
  import opened Wrappers
  import opened JavaLang
  import opened SqlBoxTypes

  /** An entity object, compared by reference. Its class, the field IDs of
      its real columns (`box.buildRealColumns()`) and its `aliasByFieldID`
      come from its box, which is not part of this model, so they are fixed
      per entity. */
  class Entity {
    const entityClass: ClassRef
    const fieldIDs: seq<string>
    const aliasByFieldID: string -> string

    constructor (entityClass: ClassRef, fieldIDs: seq<string>, aliasByFieldID: string -> string)
      ensures this.entityClass == entityClass && this.fieldIDs == fieldIDs
      ensures this.aliasByFieldID == aliasByFieldID
    {
      this.entityClass := entityClass;
      this.fieldIDs := fieldIDs;
      this.aliasByFieldID := aliasByFieldID;
    }
  }

  /** A `Mapping` of a query: this entity and its field, the other entity it
      points to, and the `isRoot` flag `transfer` sets. */
  class Mapping {
    const thisEntity: Entity
    const thisField: string
    const otherEntity: Entity
    var isRoot: bool

    constructor (thisEntity: Entity, thisField: string, otherEntity: Entity)
      ensures this.thisEntity == thisEntity && this.thisField == thisField
      ensures this.otherEntity == otherEntity && !isRoot
    {
      this.thisEntity := thisEntity;
      this.thisField := thisField;
      this.otherEntity := otherEntity;
      isRoot := false;
    }
  }

  // ----- root mapping -----

  /** No mapping of `all` has `m`'s this-entity as its other entity; `m`
      itself is among those compared, so a self-referencing mapping is no root. */
  predicate IsRootIn(all: seq<Mapping>, m: Mapping)
  {
    forall j | 0 <= j < |all| :: all[j].otherEntity != m.thisEntity
  }

  /** How many positions of `ms` hold a root of `all` (a mapping listed twice
      counts twice, as in the loop of `transfer`). */
  function RootCount(all: seq<Mapping>, ms: seq<Mapping>): nat
  {
    if ms == [] then 0
    else RootCount(all, ms[..|ms| - 1]) + (if IsRootIn(all, ms[|ms| - 1]) then 1 else 0)
  }

  /** The last root of `all` in `ms`: the one `transfer` keeps in `root`. */
  function LastRoot(all: seq<Mapping>, ms: seq<Mapping>): Option<Mapping>
  {
    if ms == [] then None
    else if IsRootIn(all, ms[|ms| - 1]) then Some(ms[|ms| - 1])
    else LastRoot(all, ms[..|ms| - 1])
  }

  lemma {:induction false} RootCountZero(all: seq<Mapping>, ms: seq<Mapping>)
    ensures RootCount(all, ms) == 0 <==> forall i | 0 <= i < |ms| :: !IsRootIn(all, ms[i])
  {
    if ms != [] {
      var init := ms[..|ms| - 1];
      RootCountZero(all, init);
      assert forall i | 0 <= i < |init| :: init[i] == ms[i];
    }
  }

  /** Position `i` holds a root and no other position of `ms` does. */
  predicate OnlyRootAt(all: seq<Mapping>, ms: seq<Mapping>, i: int)
  {
    0 <= i < |ms| && IsRootIn(all, ms[i]) &&
    forall j | 0 <= j < |ms| && j != i :: !IsRootIn(all, ms[j])
  }

  /** The count is one exactly when one position holds a root and no other does. */
  lemma RootCountOne(all: seq<Mapping>, ms: seq<Mapping>)
    ensures RootCount(all, ms) == 1 <==> exists i :: OnlyRootAt(all, ms, i)
  {
    if RootCount(all, ms) == 1 {
      var i := OneRootFound(all, ms);
    }
    if exists i :: OnlyRootAt(all, ms, i) {
      var i :| OnlyRootAt(all, ms, i);
      OnlyRootCounted(all, ms, i);
    }
  }

  lemma {:induction false} OneRootFound(all: seq<Mapping>, ms: seq<Mapping>) returns (i: int)
    requires RootCount(all, ms) == 1
    ensures OnlyRootAt(all, ms, i)
  {
    var n := |ms| - 1;
    var init := ms[..n];
    assert forall k | 0 <= k < |init| :: init[k] == ms[k];
    if IsRootIn(all, ms[n]) {
      RootCountZero(all, init);
      i := n;
    } else {
      i := OneRootFound(all, init);
    }
  }

  lemma {:induction false} OnlyRootCounted(all: seq<Mapping>, ms: seq<Mapping>, i: int)
    requires OnlyRootAt(all, ms, i)
    ensures RootCount(all, ms) == 1
  {
    var n := |ms| - 1;
    var init := ms[..n];
    assert forall k | 0 <= k < |init| :: init[k] == ms[k];
    if i == n {
      RootCountZero(all, init);
    } else {
      assert OnlyRootAt(all, init, i);
      OnlyRootCounted(all, init, i);
    }
  }

  /** `root` is set exactly when some root was counted, and it is a root
      taken from the list. */
  lemma {:induction false} LastRootFound(all: seq<Mapping>, ms: seq<Mapping>)
    ensures LastRoot(all, ms).Some? <==> RootCount(all, ms) > 0
    ensures LastRoot(all, ms).Some? ==>
      LastRoot(all, ms).value in ms && IsRootIn(all, LastRoot(all, ms).value)
  {
    if ms != [] {
      LastRootFound(all, ms[..|ms| - 1]);
    }
  }

  // ----- root rows -----

  /** `rootValueMap` after the first loop of `buildRootEntity`, with its keys
      in the order they were first met. */
  datatype RootRows = RootRows(keys: seq<Value>, firstRow: map<Value, Row>)

  /** The first loop of `buildRootEntity`: a row whose key is not null and
      not yet in the map is put in under its key; other rows are skipped. */
  function CollectRoots(rows: seq<Row>, column: string): RootRows
  {
    if rows == [] then RootRows([], map[])
    else
      var acc := CollectRoots(rows[..|rows| - 1], column);
      var m := rows[|rows| - 1];
      var v := Get(m, column);
      if v != Null && v !in acc.firstRow then RootRows(acc.keys + [v], acc.firstRow[v := m])
      else acc
  }

  /** Row `i` is the first row whose key is `v`. */
  predicate FirstWithKey(rows: seq<Row>, column: string, v: Value, i: int)
  {
    0 <= i < |rows| && Get(rows[i], column) == v &&
    forall j | 0 <= j < i :: Get(rows[j], column) != v
  }

  /** One entry per distinct non-null key, never more entries than rows, and
      each entry is the first row with its key. */
  lemma {:induction false} CollectRootsSpec(rows: seq<Row>, column: string)
    ensures var rr := CollectRoots(rows, column);
      && |rr.keys| <= |rows|
      && (forall v :: v in rr.firstRow <==> v in rr.keys)
      && (forall i, j | 0 <= i < j < |rr.keys| :: rr.keys[i] != rr.keys[j])
      && (forall v | v in rr.keys :: v != Null)
      && (forall i | 0 <= i < |rows| :: Get(rows[i], column) != Null ==> Get(rows[i], column) in rr.firstRow)
      && (forall v | v in rr.firstRow :: exists i :: FirstWithKey(rows, column, v, i) && rr.firstRow[v] == rows[i])
  {
    if rows != [] {
      var n := |rows| - 1;
      var init := rows[..n];
      CollectRootsSpec(init, column);
      var acc := CollectRoots(init, column);
      var m := rows[n];
      var v := Get(m, column);
      assert forall i | 0 <= i < n :: init[i] == rows[i];
      forall w | w in acc.firstRow
        ensures exists i :: FirstWithKey(rows, column, w, i) && acc.firstRow[w] == rows[i]
      {
        var i :| FirstWithKey(init, column, w, i) && acc.firstRow[w] == init[i];
        assert FirstWithKey(rows, column, w, i);
      }
      if v != Null && v !in acc.firstRow {
        assert FirstWithKey(rows, column, v, n);
        var rr := CollectRoots(rows, column);
        assert rr.keys == acc.keys + [v];
        forall i, j | 0 <= i < j < |rr.keys| ensures rr.keys[i] != rr.keys[j] {
          if j == |acc.keys| {
            assert rr.keys[i] == acc.keys[i] && acc.keys[i] in acc.firstRow;
          }
        }
      }
    }
  }

  /** Every collected key has its row. */
  lemma RootKeysMapped(rows: seq<Row>, column: string)
    ensures var rr := CollectRoots(rows, column);
      forall i | 0 <= i < |rr.keys| :: rr.keys[i] in rr.firstRow
  {
    CollectRootsSpec(rows, column);
  }

  /** The field values `buildRootEntity` copies from a row into an entity. */
  function EntityFields(row: Row, fieldIDs: seq<string>, aliasByFieldID: string -> string)
    : map<string, Value>
  {
    map id | id in fieldIDs && ToUpperCase(aliasByFieldID(id)) in row :: row[ToUpperCase(aliasByFieldID(id))]
  }

  /** An entity built by `buildRootEntity`: its class, its field values and
      the child list `buildChildEntity` gave it. */
  datatype BuiltEntity = BuiltEntity(entityClass: ClassRef, fields: map<string, Value>, childEntityList: seq<Row>)

  /** The upper-cased alias column of the root mapping's field: the key of a row. */
  function RootColumn(rootMapping: Mapping): string
  {
    ToUpperCase(rootMapping.thisEntity.aliasByFieldID(rootMapping.thisField))
  }

  /** The root entities `buildRootEntity` returns when it does not fail: one
      per distinct non-null root key, of the class `createEntity` gives
      (`entityClass`), filled from the first row with that key, with an empty
      child list. */
  function RootEntities(rootMapping: Mapping, rows: seq<Row>, entityClass: ClassRef): (es: seq<BuiltEntity>)
    ensures |es| == |CollectRoots(rows, RootColumn(rootMapping)).keys| <= |rows|
    ensures forall i | 0 <= i < |es| :: es[i].entityClass == entityClass && es[i].childEntityList == []
    ensures var rr := CollectRoots(rows, RootColumn(rootMapping));
      forall i | 0 <= i < |es| ::
        rr.keys[i] in rr.firstRow &&
        es[i].fields == EntityFields(rr.firstRow[rr.keys[i]], rootMapping.thisEntity.fieldIDs,
                                     rootMapping.thisEntity.aliasByFieldID)
  {
    var root := rootMapping.thisEntity;
    var rr := CollectRoots(rows, RootColumn(rootMapping));
    CollectRootsSpec(rows, RootColumn(rootMapping));
    seq(|rr.keys|, i requires 0 <= i < |rr.keys| =>
      BuiltEntity(entityClass, EntityFields(rr.firstRow[rr.keys[i]], root.fieldIDs, root.aliasByFieldID), []))
  }

  /** The first loop of `buildRootEntity`. */
  method CollectRootRows(rows: seq<Row>, column: string) returns (rr: RootRows)
    ensures rr == CollectRoots(rows, column)
  {
    rr := RootRows([], map[]);
    for i := 0 to |rows|
      invariant rr == CollectRoots(rows[..i], column)
    {
      assert rows[..i + 1][..i] == rows[..i];
      var m := rows[i];
      var value := Get(m, column);
      if value != Null && value !in rr.firstRow {
        rr := RootRows(rr.keys + [value], rr.firstRow[value := m]);
      }
    }
    assert rows[..|rows|] == rows;
  }

  /** The inner loop of `buildRootEntity`: a field gets a value exactly when
      the row has its upper-cased alias column, null values included. */
  method SetFieldValues(row: Row, fieldIDs: seq<string>, aliasByFieldID: string -> string)
    returns (fields: map<string, Value>)
    ensures forall id :: id in fields <==> id in fieldIDs && ToUpperCase(aliasByFieldID(id)) in row
    ensures forall id | id in fields :: fields[id] == row[ToUpperCase(aliasByFieldID(id))]
    ensures fields == EntityFields(row, fieldIDs, aliasByFieldID)
  {
    fields := map[];
    for i := 0 to |fieldIDs|
      invariant forall id :: id in fields <==> id in fieldIDs[..i] && ToUpperCase(aliasByFieldID(id)) in row
      invariant forall id | id in fields :: fields[id] == row[ToUpperCase(aliasByFieldID(id))]
    {
      var aliasColUp := ToUpperCase(aliasByFieldID(fieldIDs[i]));
      if aliasColUp in row {
        fields := fields[fieldIDs[i] := row[aliasColUp]];
      }
      assert fieldIDs[..i + 1] == fieldIDs[..i] + [fieldIDs[i]];
    }
    assert fieldIDs[..|fieldIDs|] == fieldIDs;
  }
}
