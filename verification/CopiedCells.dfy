/**
 * What a copied row holds besides its keys to other copied rows: new texts where they must be the
 * only ones of their kind, the drill's hotel, and keys that name no copied row.
 */
module CopiedCells {
  import opened Graphs
  import opened TableOrder
  import opened Restore
  import opened RestoreProof

  /**
   * What stands in for a text that must be the only one of its kind: the new id, and an address
   * made of it for a user.
   */
  function StandIn(table: Name, f: string, newId: string): string {
    if table == Name("User") && f == "email" then "restore-drill+" + newId + "@invalid.local" else newId
  }

  lemma {:induction false} MadeUnique(m: Meta, out: Row, newId: string, fields: seq<string>, f: string)
    requires m.idIsUuid && f in fields
    ensures var r := MakeUnique(m, out, newId, fields);
      if Empty(out, f) then Empty(r, f) else HasCell(r, f, Text(StandIn(m.name, f, newId)))
    decreases |fields|
  {
    var g, rest := fields[0], fields[1..];
    var next := if Empty(out, g) then out else out[g := Text(StandIn(m.name, g, newId))];
    assert MakeUnique(m, out, newId, fields) == MakeUnique(m, next, newId, rest);
    if f in rest {
      MadeUnique(m, next, newId, rest, f);
    } else {
      assert f == g;
      UniqueCell(m, next, newId, rest, f);
    }
  }

  lemma NoKey(m: Meta, f: string)
    requires GoodMeta(m) && (f in m.uniqueFields || f == m.idField)
    ensures forall c :: c in Columns(m.relations) || c in Columns(m.deferred) ==> c.field != f
  {
    ColumnsSplit(m);
  }

  lemma InsertedUnique(m: Meta, row: Row, newId: string, tenant: string, maps: IdMaps, f: string)
    requires GoodMeta(m) && m.idIsUuid && f in m.uniqueFields
    ensures var r := Inserted(m, row, newId, tenant, maps);
      if Empty(row, f) && f != TENANT_ID then Empty(r, f) else HasCell(r, f, Text(StandIn(m.name, f, newId)))
  {
    NoKey(m, f);
    ColumnsSplit(m);
    var base := Stamped(m, row, newId, tenant);
    MappedCell(base, Columns(m.relations), maps, f);
    var kept := MapKept(base, Columns(m.relations), maps);
    DeferredCell(m, kept, Columns(m.deferred), f);
    MadeUnique(m, Defer(m, kept, Columns(m.deferred)), newId, m.uniqueFields, f);
  }

  /** In the copy a column that must be unique holds its stand-in, or nothing where it held nothing. */
  lemma UniqueColumnReplaced(order: seq<Meta>, s: Snapshot, supply: Supply, tenant: string, i: nat, j: nat, f: string)
    requires Restorable(order, s) && Fresh(order, s, supply) && i < |order| && j < |RowsOf(s, order[i].name)|
    requires order[i].idIsUuid && f in order[i].uniqueFields
    ensures var r, n := Copy(order, s, supply, tenant), order[i].name;
      && n in r && |r[n]| == |RowsOf(s, n)|
      && if Empty(RowsOf(s, n)[j], f) && f != TENANT_ID then Empty(r[n][j], f)
         else HasCell(r[n][j], f, Text(StandIn(n, f, supply(n, j))))
  {
    var m, rows := order[i], RowsOf(s, order[i].name);
    NoKey(m, f);
    FinalCell(order, s, supply, tenant, i, j, f);
    InsertedUnique(m, rows[j], supply(m.name, j), tenant,
      MapsDuring(MapsAfter(order, s, supply, i), m, rows, supply, j + 1), f);
  }

  /** The addresses made of new ids are as new as the ids: the snapshot holds none. */
  ghost predicate AddressesFresh(order: seq<Meta>, s: Snapshot, supply: Supply) {
    forall i, j, f, n, l: nat ::
      0 <= i < |order| && 0 <= j < |RowsOf(s, order[i].name)| ==>
        !HasCell(RowsOf(s, order[i].name)[j], f, Text("restore-drill+" + supply(n, l) + "@invalid.local"))
  }

  /**
   * What a unique column held is replaced by a text no row of the snapshot holds in any column; for a user's
   * address that takes a snapshot without addresses made of the new ids.
   */
  lemma UniqueColumnIsNew(order: seq<Meta>, s: Snapshot, supply: Supply, tenant: string, i: nat, j: nat, f: string,
      i': nat, j': nat, f': string)
    requires Restorable(order, s) && Fresh(order, s, supply) && i < |order| && j < |RowsOf(s, order[i].name)|
    requires order[i].idIsUuid && f in order[i].uniqueFields && !Empty(RowsOf(s, order[i].name)[j], f)
    requires i' < |order| && j' < |RowsOf(s, order[i'].name)|
    requires order[i].name == Name("User") && f == "email" ==> AddressesFresh(order, s, supply)
    ensures var r, n := Copy(order, s, supply, tenant), order[i].name;
      && n in r && j < |r[n]| && f in r[n][j] && r[n][j][f].Text?
      && !HasCell(RowsOf(s, order[i'].name)[j'], f', r[n][j][f])
  {
    UniqueColumnReplaced(order, s, supply, tenant, i, j, f);
  }

  lemma Inner(before: string, text: string, after: string)
    ensures var all := before + text + after; all[|before|..|all| - |after|] == text
  {
  }

  lemma StandInsDiffer(table: Name, f: string, id: string, other: string)
    ensures StandIn(table, f, id) == StandIn(table, f, other) ==> id == other
  {
    Inner("restore-drill+", id, "@invalid.local");
    Inner("restore-drill+", other, "@invalid.local");
  }

  /** No two rows of a table of the copy agree on a unique column. */
  lemma UniqueColumnsDiffer(order: seq<Meta>, s: Snapshot, supply: Supply, tenant: string, i: nat, j: nat, l: nat,
      f: string)
    requires Restorable(order, s) && Fresh(order, s, supply) && i < |order| && order[i].idIsUuid &&
      f in order[i].uniqueFields
    requires j < |RowsOf(s, order[i].name)| && l < |RowsOf(s, order[i].name)| && j != l
    ensures var r, n := Copy(order, s, supply, tenant), order[i].name;
      && n in r && j < |r[n]| && l < |r[n]|
      && (!Empty(r[n][j], f) ==> !HasCell(r[n][l], f, r[n][j][f]))
  {
    UniqueColumnReplaced(order, s, supply, tenant, i, j, f);
    UniqueColumnReplaced(order, s, supply, tenant, i, l, f);
    StandInsDiffer(order[i].name, f, supply(order[i].name, j), supply(order[i].name, l));
  }

  /** A user with an address gets one made of the new id. */
  lemma UserAddress(order: seq<Meta>, s: Snapshot, supply: Supply, tenant: string, i: nat, j: nat)
    requires Restorable(order, s) && Fresh(order, s, supply) && i < |order| && order[i].name == Name("User")
    requires order[i].idIsUuid && "email" in order[i].uniqueFields
    requires j < |RowsOf(s, Name("User"))| && !Empty(RowsOf(s, Name("User"))[j], "email")
    ensures var r := Copy(order, s, supply, tenant);
      && Name("User") in r && j < |r[Name("User")]|
      && HasCell(r[Name("User")][j], "email", Text("restore-drill+" + supply(Name("User"), j) + "@invalid.local"))
  {
    UniqueColumnReplaced(order, s, supply, tenant, i, j, "email");
  }

  /** Row `j'` of table `i'` holds a text in column `f'`. */
  ghost predicate Holds(order: seq<Meta>, s: Snapshot, i': nat, j': nat, f': string, text: string) {
    i' < |order| && j' < |RowsOf(s, order[i'].name)| && HasCell(RowsOf(s, order[i'].name)[j'], f', Text(text))
  }

  /** A user's address in the copy is found nowhere in the snapshot exactly when none there is made of that id. */
  lemma AddressIsNewIff(order: seq<Meta>, s: Snapshot, supply: Supply, tenant: string, i: nat, j: nat)
    requires Restorable(order, s) && Fresh(order, s, supply) && i < |order| && order[i].name == Name("User")
    requires order[i].idIsUuid && "email" in order[i].uniqueFields
    requires j < |RowsOf(s, Name("User"))| && !Empty(RowsOf(s, Name("User"))[j], "email")
    ensures var r, n := Copy(order, s, supply, tenant), Name("User");
      && n in r && j < |r[n]| && "email" in r[n][j] && r[n][j]["email"].Text?
      && ((exists i': nat, j': nat, f' :: Holds(order, s, i', j', f', r[n][j]["email"].text)) <==>
          (exists i': nat, j': nat, f' ::
             Holds(order, s, i', j', f', "restore-drill+" + supply(n, j) + "@invalid.local")))
  {
    UserAddress(order, s, supply, tenant, i, j);
  }

  const USERS := Meta(Name("User"), "id", true, ["email"], [], [])

  /** One user, whose address is the one made of the id the copy will have. */
  function Taken(supply: Supply): Snapshot {
    map[Name("User") := [map[
      "id" := Text("a"), "email" := Text("restore-drill+" + supply(Name("User"), 0) + "@invalid.local")]]]
  }

  lemma UsersAreRestorable(supply: Supply)
    ensures Restorable([USERS], Taken(supply)) && |RowsOf(Taken(supply), USERS.name)| == 1
  {
    assert Columns([]) == [] && AllColumns(USERS) == [];
    assert |"id"| != |TENANT_ID| && |"id"| != |"email"| && Name("User").text[0] == 'U' && TENANT.text[0] == 'T';
  }

  /** Such an address is written a second time. */
  lemma TakenAddressIsRepeated(supply: Supply, tenant: string)
    requires Fresh([USERS], Taken(supply), supply)
    ensures Restorable([USERS], Taken(supply))
    ensures var r, n := Copy([USERS], Taken(supply), supply, tenant), Name("User");
      n in r && |r[n]| == 1 && "email" in r[n][0] && r[n][0]["email"] == Taken(supply)[n][0]["email"]
  {
    UsersAreRestorable(supply);
    var n := Name("User");
    assert |"id"| != |"email"|;
    assert !Empty(RowsOf(Taken(supply), n)[0], "email");
    UniqueColumnReplaced([USERS], Taken(supply), supply, tenant, 0, 0, "email");
  }

  /**
   * Every row of the copy belongs to the drill's hotel, and one whose table numbers its own rows
   * brings no number along.
   */
  lemma RowsBelongToTheDrill(order: seq<Meta>, s: Snapshot, supply: Supply, tenant: string, i: nat, j: nat)
    requires Restorable(order, s) && Fresh(order, s, supply) && i < |order| && j < |RowsOf(s, order[i].name)|
    ensures var r, m := Copy(order, s, supply, tenant), order[i];
      && m.name in r && j < |r[m.name]|
      && (TENANT_ID !in m.uniqueFields ==> HasCell(r[m.name][j], TENANT_ID, Text(tenant)))
      && (!m.idIsUuid ==> m.idField !in r[m.name][j])
  {
    var m, rows := order[i], RowsOf(s, order[i].name);
    var maps := MapsDuring(MapsAfter(order, s, supply, i), m, rows, supply, j + 1);
    NoKey(m, m.idField);
    FinalCell(order, s, supply, tenant, i, j, TENANT_ID);
    FinalCell(order, s, supply, tenant, i, j, m.idField);
    InsertedCell(m, rows[j], supply(m.name, j), tenant, maps, TENANT_ID);
    if !m.idIsUuid {
      NumberLeftOut(m, rows[j], supply(m.name, j), tenant, maps);
    }
  }

  lemma NumberLeftOut(m: Meta, row: Row, newId: string, tenant: string, maps: IdMaps)
    requires GoodMeta(m) && !m.idIsUuid
    ensures m.idField !in Inserted(m, row, newId, tenant, maps)
  {
    ColumnsSplit(m);
    var base := Stamped(m, row, newId, tenant);
    MappedCell(base, Columns(m.relations), maps, m.idField);
    var kept := MapKept(base, Columns(m.relations), maps);
    DeferredCell(m, kept, Columns(m.deferred), m.idField);
    UniqueCell(m, Defer(m, kept, Columns(m.deferred)), newId, m.uniqueFields, m.idField);
  }

  // ----- keys that name no copied row -----

  lemma {:induction false} IdsFrom(m: Meta, rows: seq<Row>, supply: Supply, n: nat, v: string) returns (l: nat)
    requires n <= |rows| && v in Ids(m, rows, supply, n)
    ensures l < n && m.idField in rows[l] && rows[l][m.idField] == Text(v)
  {
    if m.idField in rows[n - 1] && rows[n - 1][m.idField] == Text(v) {
      l := n - 1;
    } else {
      l := IdsFrom(m, rows, supply, n - 1, v);
    }
  }

  lemma {:induction false} MapsFrom(order: seq<Meta>, s: Snapshot, supply: Supply, i: nat, n: Name) returns (k: nat)
    requires i <= |order| && n in MapsAfter(order, s, supply, i)
    ensures k < i && order[k].name == n
  {
    if order[i - 1].name == n {
      k := i - 1;
    } else {
      k := MapsFrom(order, s, supply, i - 1, n);
    }
  }

  /** What the ids after `i` tables rename is the id of a row of one of them. */
  lemma NamedAfter(order: seq<Meta>, s: Snapshot, supply: Supply, i: nat, n: Name, v: Value) returns (k: nat, l: nat)
    requires Restorable(order, s) && i <= |order| && Renamed(MapsAfter(order, s, supply, i), n, v) != v
    ensures k < i && order[k].name == n && l < |RowsOf(s, n)| && HasCell(RowsOf(s, n)[l], order[k].idField, v)
  {
    k := MapsFrom(order, s, supply, i, n);
    KnownIds(order, s, supply, i, k);
    l := IdsFrom(order[k], RowsOf(s, n), supply, |RowsOf(s, n)|, v.text);
  }

  lemma NamedDuring(order: seq<Meta>, s: Snapshot, supply: Supply, i: nat, j: nat, n: Name, v: Value)
      returns (k: nat, l: nat)
    requires Restorable(order, s) && i < |order| && j < |RowsOf(s, order[i].name)|
    requires
      var maps := MapsDuring(MapsAfter(order, s, supply, i), order[i], RowsOf(s, order[i].name), supply, j + 1);
      Renamed(maps, n, v) != v
    ensures k <= i && order[k].name == n && l < |RowsOf(s, n)| && HasCell(RowsOf(s, n)[l], order[k].idField, v)
    ensures k < i || l <= j
  {
    if n == order[i].name {
      k := i;
      l := IdsFrom(order[i], RowsOf(s, n), supply, j + 1, v.text);
    } else {
      k, l := NamedAfter(order, s, supply, i, n, v);
    }
  }

  lemma RenamedAtEndPoints(order: seq<Meta>, s: Snapshot, supply: Supply, i: nat, j: nat, c: Column)
    requires Restorable(order, s) && i < |order| && j < |RowsOf(s, order[i].name)|
    requires !Empty(RowsOf(s, order[i].name)[j], c.field)
    ensures var v := RowsOf(s, order[i].name)[j][c.field];
      || Renamed(MapsAfter(order, s, supply, |order|), c.target, v) == v
      || exists k: nat, l: nat :: Points(order, s, i, j, c, k, l)
  {
    var v := RowsOf(s, order[i].name)[j][c.field];
    if Renamed(MapsAfter(order, s, supply, |order|), c.target, v) != v {
      var k, l := NamedAfter(order, s, supply, |order|, c.target, v);
      assert Points(order, s, i, j, c, k, l);
    }
  }

  lemma RenamedAtOncePoints(order: seq<Meta>, s: Snapshot, supply: Supply, i: nat, j: nat, c: Column)
    requires Restorable(order, s) && i < |order| && j < |RowsOf(s, order[i].name)|
    requires !Empty(RowsOf(s, order[i].name)[j], c.field)
    ensures
      var maps := MapsDuring(MapsAfter(order, s, supply, i), order[i], RowsOf(s, order[i].name), supply, j + 1);
      var v := RowsOf(s, order[i].name)[j][c.field];
      || Renamed(maps, c.target, v) == v
      || exists k: nat, l: nat :: Points(order, s, i, j, c, k, l) && (k < i || l <= j)
  {
    var maps := MapsDuring(MapsAfter(order, s, supply, i), order[i], RowsOf(s, order[i].name), supply, j + 1);
    var v := RowsOf(s, order[i].name)[j][c.field];
    if Renamed(maps, c.target, v) != v {
      var k, l := NamedDuring(order, s, supply, i, j, c.target, v);
      assert Points(order, s, i, j, c, k, l);
    }
  }

  /**
   * A key that names no row copied by the time it is looked up, when its own row is copied or, if deferred,
   * at the end, is carried over as it is.
   */
  lemma OtherKeysKept(order: seq<Meta>, s: Snapshot, supply: Supply, tenant: string, i: nat, j: nat, c: Column)
    requires Restorable(order, s) && Fresh(order, s, supply) && i < |order| && j < |RowsOf(s, order[i].name)|
    requires c in AllColumns(order[i]) && c.field != TENANT_ID && c.target != TENANT
    requires !Empty(RowsOf(s, order[i].name)[j], c.field)
    requires forall k: nat, l: nat :: Points(order, s, i, j, c, k, l) ==>
      !(c in Columns(order[i].deferred) || k < i || l <= j)
    ensures var r, n := Copy(order, s, supply, tenant), order[i].name;
      n in r && j < |r[n]| && HasCell(r[n][j], c.field, RowsOf(s, n)[j][c.field])
  {
    var m, rows := order[i], RowsOf(s, order[i].name);
    ColumnsSplit(m);
    FinalCell(order, s, supply, tenant, i, j, c.field);
    if c in Columns(m.deferred) {
      RenamedAtEndPoints(order, s, supply, i, j, c);
    } else {
      InsertedCell(m, rows[j], supply(m.name, j), tenant,
        MapsDuring(MapsAfter(order, s, supply, i), m, rows, supply, j + 1), c.field);
      RenamedAtOncePoints(order, s, supply, i, j, c);
    }
  }
}
