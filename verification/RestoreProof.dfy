/** When the copy a restore drill makes is the snapshot with its ids renamed, and nothing else. */
module RestoreProof {
  import opened Graphs
  import opened TableOrder
  import opened Restore

  ghost predicate DistinctFields(cols: seq<Column>) {
    forall i, j :: 0 <= i < j < |cols| ==> cols[i].field != cols[j].field
  }

  function AllColumns(m: Meta): seq<Column> {
    Columns(m.relations) + Columns(m.deferred)
  }

  /** Every column serves one foreign key at most, and an id, a tenant or a rewritten column serves none. */
  ghost predicate GoodMeta(m: Meta) {
    && DistinctFields(AllColumns(m)) && m.idField != TENANT_ID && m.idField !in m.uniqueFields
    && (forall c :: c in AllColumns(m) ==> c.field != m.idField && c.field !in m.uniqueFields)
    && (forall c :: c in Columns(m.relations) && c.field == TENANT_ID ==> c.target == TENANT)
    && (forall c :: c in Columns(m.deferred) ==> c.field != TENANT_ID)
    && (m.deferred != [] ==> m.idIsUuid)
  }

  /** A column that is no id, no tenant, no rewritten text and no key. */
  ghost predicate IsPlain(m: Meta, f: string) {
    f != m.idField && f != TENANT_ID && f !in m.uniqueFields && forall c :: c in AllColumns(m) ==> c.field != f
  }

  ghost predicate HasCell(row: Row, f: string, v: Value) {
    f in row && row[f] == v
  }

  /** Column `c` of row `j` of table `i` holds the id of row `l` of table `k`. */
  ghost predicate Points(order: seq<Meta>, s: Snapshot, i: nat, j: nat, c: Column, k: nat, l: nat) {
    && i < |order| && k < |order| && c.target == order[k].name
    && j < |RowsOf(s, order[i].name)| && l < |RowsOf(s, order[k].name)|
    && !Empty(RowsOf(s, order[i].name)[j], c.field) && order[k].idField in RowsOf(s, order[k].name)[l]
    && RowsOf(s, order[i].name)[j][c.field] == RowsOf(s, order[k].name)[l][order[k].idField]
  }

  ghost predicate GoodIds(m: Meta, rows: seq<Row>) {
    m.idIsUuid ==>
      && (forall j :: 0 <= j < |rows| ==> m.idField in rows[j] && rows[j][m.idField].Text?)
      && (forall j, l :: 0 <= j < l < |rows| ==> rows[j][m.idField] != rows[l][m.idField])
  }

  /** What a snapshot and a computed order give: keys are keys, and tables come after those they point at. */
  ghost predicate Restorable(order: seq<Meta>, s: Snapshot) {
    && (forall i, k :: 0 <= i < k < |order| ==> order[i].name != order[k].name)
    && (forall i ::
      0 <= i < |order| ==> GoodMeta(order[i]) && GoodIds(order[i], RowsOf(s, order[i].name)) && order[i].name != TENANT)
    && (forall i, k, c ::
      0 <= i < |order| && 0 <= k < |order| && c in AllColumns(order[i]) && c.target == order[k].name ==>
          order[k].idIsUuid && (c in Columns(order[i].relations) ==> k <= i))
  }

  /** Ids never handed out twice, and found nowhere in the snapshot. */
  ghost predicate Fresh(order: seq<Meta>, s: Snapshot, supply: Supply) {
    && (forall n, j: nat, n', j': nat :: supply(n, j) == supply(n', j') ==> n == n' && j == j')
    && (forall i, j, f, n, l: nat ::
      0 <= i < |order| && 0 <= j < |RowsOf(s, order[i].name)| ==>
        !HasCell(RowsOf(s, order[i].name)[j], f, Text(supply(n, l))))
  }

  // ----- what happens to one cell of one row -----

  lemma MappedCell(out: Row, cols: seq<Column>, maps: IdMaps, f: string)
    requires DistinctFields(cols)
    ensures var r := MapKept(out, cols, maps); f in r <==> f in out
    ensures var r := MapKept(out, cols, maps);
      forall c ::
        c in cols && c.field == f && f in out ==>
          r[f] == if Skipped(out, c) then out[f] else Renamed(maps, c.target, out[f])
    ensures var r := MapKept(out, cols, maps); (forall c :: c in cols ==> c.field != f) && f in out ==> r[f] == out[f]
    decreases |cols|
  {
    if cols != [] {
      var c := cols[0];
      var next := if Skipped(out, c) then out else out[c.field := Renamed(maps, c.target, out[c.field])];
      MappedCell(next, cols[1..], maps, f);
      forall d | d in cols ensures d == c || d in cols[1..] {}
      forall d | d in cols[1..] ensures d in cols && d.field != c.field {}
    }
  }

  lemma DeferredCell(meta: Meta, out: Row, cols: seq<Column>, f: string)
    requires meta.idIsUuid || cols == []
    ensures var r := Defer(meta, out, cols); f in r <==> f in out
    ensures var r := Defer(meta, out, cols);
      f in out ==> r[f] == if exists c :: c in cols && c.field == f then Null else out[f]
    decreases |cols|
  {
    if cols != [] {
      var c := cols[0];
      DeferredCell(meta, if Empty(out, c.field) || !meta.idIsUuid then out else out[c.field := Null], cols[1..], f);
      assert forall d :: d in cols <==> d == c || d in cols[1..];
    }
  }

  lemma UniqueCell(meta: Meta, out: Row, newId: string, fields: seq<string>, f: string)
    requires f !in fields
    ensures var r := MakeUnique(meta, out, newId, fields); (f in r <==> f in out) && (f in out ==> r[f] == out[f])
    decreases |fields|
  {
  }

  lemma LinkMember(meta: Meta, out: Row, newId: string, cols: seq<Column>, link: Link)
    requires DistinctFields(cols) && meta.idIsUuid
    ensures link in LinksOf(meta, out, newId, cols) <==>
      exists c ::
        c in cols && !Empty(out, c.field) &&
          link == Link(meta.name, meta.idField, newId, c.field, c.target, out[c.field])
    decreases |cols|
  {
    if cols != [] {
      var c := cols[0];
      assert forall d :: d in cols <==> d == c || d in cols[1..];
      forall d | d in cols[1..] ensures d.field != c.field {}
      var next := if Empty(out, c.field) then out else out[c.field := Null];
      LinkMember(meta, next, newId, cols[1..], link);
    }
  }

  /**
   * A row as inserted: its id is the new one, a kept key is renamed, a deferred one is empty, the
   * rest is as it was.
   */
  lemma InsertedCell(m: Meta, row: Row, newId: string, tenant: string, maps: IdMaps, f: string)
    requires GoodMeta(m)
    ensures var r := Inserted(m, row, newId, tenant, maps);
      && (f == m.idField && m.idIsUuid ==> HasCell(r, f, Text(newId)))
      && (f == TENANT_ID ==> HasCell(r, f, Text(tenant)) || TENANT_ID in m.uniqueFields)
      && (forall c :: c in Columns(m.relations) && c.field == f && f != TENANT_ID && c.target != TENANT ==>
            (f in r <==> f in row) &&
              (f in row ==> r[f] == if Empty(row, f) then row[f] else Renamed(maps, c.target, row[f])))
      && (forall c :: c in Columns(m.deferred) && c.field == f ==> Empty(r, f))
      && (IsPlain(m, f) ==>
            (f in r <==> f in row) && (f in row ==> r[f] == row[f]))
  {
    var cols, later := Columns(m.relations), Columns(m.deferred);
    ColumnsSplit(m);
    var base := Stamped(m, row, newId, tenant);
    MappedCell(base, cols, maps, f);
    var kept := MapKept(base, cols, maps);
    DeferredCell(m, kept, later, f);
    if f !in m.uniqueFields {
      UniqueCell(m, Defer(m, kept, later), newId, m.uniqueFields, f);
    }
    if f == TENANT_ID {
      assert forall c :: c in cols && c.field == f ==> Skipped(base, c);
    }
  }

  lemma DistinctParts(a: seq<Column>, b: seq<Column>)
    requires DistinctFields(a + b)
    ensures DistinctFields(a) && DistinctFields(b)
    ensures forall c, d :: c in a && d in b ==> c.field != d.field
  {
    forall i, j | 0 <= i < j < |a| ensures a[i].field != a[j].field {
      assert (a + b)[i] == a[i] && (a + b)[j] == a[j];
    }
    forall i, j | 0 <= i < j < |b| ensures b[i].field != b[j].field {
      assert (a + b)[|a| + i] == b[i] && (a + b)[|a| + j] == b[j];
    }
    forall c, d | c in a && d in b ensures c.field != d.field {
      var i :| 0 <= i < |a| && a[i] == c;
      var j :| 0 <= j < |b| && b[j] == d;
      assert (a + b)[i] == c && (a + b)[|a| + j] == d;
    }
  }

  lemma ColumnsSplit(m: Meta)
    requires GoodMeta(m)
    ensures DistinctFields(Columns(m.relations)) && DistinctFields(Columns(m.deferred))
    ensures forall c :: c in AllColumns(m) <==> c in Columns(m.relations) || c in Columns(m.deferred)
    ensures forall c, d :: c in Columns(m.relations) && d in Columns(m.deferred) ==> c.field != d.field
    ensures m.deferred == [] ==> Columns(m.deferred) == []
  {
    DistinctParts(Columns(m.relations), Columns(m.deferred));
  }

  lemma RowLink(m: Meta, row: Row, newId: string, tenant: string, maps: IdMaps, link: Link)
    requires GoodMeta(m)
    ensures link in LinksOfRow(m, row, newId, tenant, maps) <==>
      exists c ::
        c in Columns(m.deferred) && !Empty(row, c.field) &&
          link == Link(m.name, m.idField, newId, c.field, c.target, row[c.field])
  {
    ColumnsSplit(m);
    var base := Stamped(m, row, newId, tenant);
    var kept := MapKept(base, Columns(m.relations), maps);
    forall c | c in Columns(m.deferred)
      ensures (c.field in kept <==> c.field in row) && (c.field in row ==> kept[c.field] == row[c.field]) {
      assert c in AllColumns(m);
      MappedCell(base, Columns(m.relations), maps, c.field);
    }
    if m.deferred != [] {
      LinkMember(m, kept, newId, Columns(m.deferred), link);
    }
  }

  // ----- ids -----

  lemma IdOf(m: Meta, rows: seq<Row>, supply: Supply, n: nat, l: nat)
    requires m.idIsUuid && GoodIds(m, rows) && n <= |rows| && l < |rows|
    ensures var v := rows[l][m.idField].text; var ids := Ids(m, rows, supply, n);
      if l < n then v in ids && ids[v] == supply(m.name, l) else v !in ids
  {
  }

  lemma KnownIds(order: seq<Meta>, s: Snapshot, supply: Supply, i: nat, k: nat)
    requires i <= |order| && k < |order|
    requires forall a, b :: 0 <= a < b < |order| ==> order[a].name != order[b].name
    ensures var maps := MapsAfter(order, s, supply, i); var rows := RowsOf(s, order[k].name);
      if k < i && rows != [] then order[k].name in maps && maps[order[k].name] == Ids(order[k], rows, supply, |rows|)
        else order[k].name !in maps
  {
  }

  /** A key mapped with the ids known at row `j` of table `i` is renamed unless it points ahead. */
  lemma RenamedKey(order: seq<Meta>, s: Snapshot, supply: Supply, i: nat, j: nat, c: Column, k: nat, l: nat)
    requires Restorable(order, s) && Points(order, s, i, j, c, k, l) && c in Columns(order[i].relations)
    ensures
      var rows := RowsOf(s, order[i].name);
      var maps := MapsDuring(MapsAfter(order, s, supply, i), order[i], rows, supply, j + 1);
      Renamed(maps, c.target, rows[j][c.field]) == if k < i || l <= j then Text(supply(order[k].name, l))
        else rows[j][c.field]
  {
    assert c in AllColumns(order[i]);
    assert order[k].idIsUuid && k <= i && GoodIds(order[k], RowsOf(s, order[k].name));
    RenamedWithKnown(order, s, supply, i, j, k, l);
  }

  lemma RenamedWithKnown(order: seq<Meta>, s: Snapshot, supply: Supply, i: nat, j: nat, k: nat, l: nat)
    requires k <= i < |order| && j < |RowsOf(s, order[i].name)| && l < |RowsOf(s, order[k].name)|
    requires forall a, b :: 0 <= a < b < |order| ==> order[a].name != order[b].name
    requires order[k].idIsUuid && GoodIds(order[k], RowsOf(s, order[k].name))
    ensures
      var maps := MapsDuring(MapsAfter(order, s, supply, i), order[i], RowsOf(s, order[i].name), supply, j + 1);
      var id := RowsOf(s, order[k].name)[l][order[k].idField];
      Renamed(maps, order[k].name, id) == if k < i || l <= j then Text(supply(order[k].name, l)) else id
  {
    var earlier, m, rows := MapsAfter(order, s, supply, i), order[i], RowsOf(s, order[i].name);
    var maps := MapsDuring(earlier, m, rows, supply, j + 1);
    if k < i {
      KnownIds(order, s, supply, i, k);
      assert maps[order[k].name] == earlier[order[k].name];
      RenamedBy(maps, order[k], RowsOf(s, order[k].name), supply, |RowsOf(s, order[k].name)|, l);
    } else {
      RenamedBy(maps, m, rows, supply, j + 1, l);
    }
  }

  lemma RenamedBy(maps: IdMaps, m: Meta, rows: seq<Row>, supply: Supply, n: nat, l: nat)
    requires m.idIsUuid && GoodIds(m, rows) && n <= |rows| && l < |rows|
    requires m.name in maps && maps[m.name] == Ids(m, rows, supply, n)
    ensures Renamed(maps, m.name, rows[l][m.idField]) == if l < n then Text(supply(m.name, l)) else rows[l][m.idField]
  {
    IdOf(m, rows, supply, n, l);
  }

  lemma RenamedAtTheEnd(order: seq<Meta>, s: Snapshot, supply: Supply, i: nat, j: nat, c: Column, k: nat, l: nat)
    requires Restorable(order, s) && Points(order, s, i, j, c, k, l) && c in AllColumns(order[i])
    ensures Renamed(MapsAfter(order, s, supply, |order|), c.target, RowsOf(s, order[i].name)[j][c.field]) ==
      Text(supply(order[k].name, l))
  {
    KnownIds(order, s, supply, |order|, k);
    IdOf(order[k], RowsOf(s, order[k].name), supply, |RowsOf(s, order[k].name)|, l);
  }

  // ----- the deferred keys -----

  /** The link recorded for column `c` of row `j` of table `i`. */
  ghost predicate IsLink(order: seq<Meta>, s: Snapshot, supply: Supply, i: nat, j: nat, c: Column, link: Link) {
    && i < |order| && j < |RowsOf(s, order[i].name)| && c in Columns(order[i].deferred)
    && !Empty(RowsOf(s, order[i].name)[j], c.field)
    && link ==
      Link(order[i].name, order[i].idField, supply(order[i].name, j), c.field, c.target,
        RowsOf(s, order[i].name)[j][c.field])
  }

  ghost predicate AllGood(order: seq<Meta>) {
    forall i {:trigger GoodMeta(order[i])} :: 0 <= i < |order| ==> GoodMeta(order[i])
  }

  lemma TableLink(order: seq<Meta>, s: Snapshot, supply: Supply, tenant: string, i: nat, maps: IdMaps, n: nat,
      link: Link)
    requires i < |order| && AllGood(order) && n <= |RowsOf(s, order[i].name)|
    ensures link in LinksOfTable(order[i], RowsOf(s, order[i].name), supply, tenant, maps, n) <==>
      exists j: nat, c :: j < n && IsLink(order, s, supply, i, j, c, link)
    decreases n
  {
    if n > 0 {
      var m, rows := order[i], RowsOf(s, order[i].name);
      TableLink(order, s, supply, tenant, i, maps, n - 1, link);
      RowLink(m, rows[n - 1], supply(m.name, n - 1), tenant, MapsDuring(maps, m, rows, supply, n), link);
      forall c | c in Columns(m.deferred) && !Empty(rows[n - 1], c.field) &&
        link == Link(m.name, m.idField, supply(m.name, n - 1), c.field, c.target, rows[n - 1][c.field])
        ensures IsLink(order, s, supply, i, n - 1, c, link) {}
    }
  }

  /** The links noted while table `i` is copied. */
  ghost function TableLinks(order: seq<Meta>, s: Snapshot, supply: Supply, tenant: string, i: nat): seq<Link>
    requires i < |order|
  {
    LinksOfTable(order[i], RowsOf(s, order[i].name), supply, tenant, MapsAfter(order, s, supply, i),
      |RowsOf(s, order[i].name)|)
  }

  /** Lists put one behind another hold what any of them holds. */
  lemma {:induction false} PutTogether<T>(sums: seq<seq<T>>, parts: seq<seq<T>>, n: nat, x: T)
    requires n <= |parts| && |sums| == |parts| + 1 && sums[0] == []
    requires forall k: nat {:trigger parts[k]} :: k < |parts| ==> sums[k + 1] == sums[k] + parts[k]
    ensures x in sums[n] <==> exists k :: 0 <= k < n && x in parts[k]
    decreases n
  {
    if n > 0 {
      PutTogether(sums, parts, n - 1, x);
      assert sums[n - 1 + 1] == sums[n - 1] + parts[n - 1];
    }
  }

  lemma {:induction false} OneTableOfLinks(order: seq<Meta>, s: Snapshot, supply: Supply, tenant: string, k: nat)
    requires k < |order|
    ensures AllLinks(order, s, supply, tenant, k + 1) ==
      AllLinks(order, s, supply, tenant, k) + TableLinks(order, s, supply, tenant, k)
  {
  }

  /** A link is noted exactly when it is noted in one of the tables. */
  lemma {:induction false} LinksOfTables(order: seq<Meta>, s: Snapshot, supply: Supply, tenant: string, link: Link)
    ensures link in AllLinks(order, s, supply, tenant, |order|) <==>
      exists i: nat :: i < |order| && link in TableLinks(order, s, supply, tenant, i)
  {
    var sums := seq(|order| + 1, k requires 0 <= k <= |order| => AllLinks(order, s, supply, tenant, k));
    var parts := seq(|order|, k requires 0 <= k < |order| => TableLinks(order, s, supply, tenant, k));
    forall k: nat | k < |parts| ensures sums[k + 1] == sums[k] + parts[k] {
      OneTableOfLinks(order, s, supply, tenant, k);
    }
    PutTogether(sums, parts, |order|, link);
    forall i: nat | i < |order| ensures parts[i] == TableLinks(order, s, supply, tenant, i) {}
  }

  lemma {:induction false} TableLinkIff(order: seq<Meta>, s: Snapshot, supply: Supply, tenant: string, i: nat,
      link: Link)
    requires i < |order| && AllGood(order)
    ensures link in TableLinks(order, s, supply, tenant, i) <==> exists j: nat, c ::
      IsLink(order, s, supply, i, j, c, link)
  {
    var rows := RowsOf(s, order[i].name);
    TableLink(order, s, supply, tenant, i, MapsAfter(order, s, supply, i), |rows|, link);
    if j: nat, c :| IsLink(order, s, supply, i, j, c, link) {
      assert j < |rows|;
    }
  }

  lemma {:induction false} LinkFromTable(order: seq<Meta>, s: Snapshot, supply: Supply, tenant: string, i: nat,
      link: Link) returns (j: nat, c: Column)
    requires i < |order| && AllGood(order) && link in TableLinks(order, s, supply, tenant, i)
    ensures IsLink(order, s, supply, i, j, c, link)
  {
    TableLinkIff(order, s, supply, tenant, i, link);
    j, c :| IsLink(order, s, supply, i, j, c, link);
  }

  lemma {:induction false} LinkFrom(order: seq<Meta>, s: Snapshot, supply: Supply, tenant: string, link: Link)
      returns (i: nat, j: nat, c: Column)
    requires AllGood(order) && link in AllLinks(order, s, supply, tenant, |order|)
    ensures IsLink(order, s, supply, i, j, c, link)
  {
    LinksOfTables(order, s, supply, tenant, link);
    i :| i < |order| && link in TableLinks(order, s, supply, tenant, i);
    j, c := LinkFromTable(order, s, supply, tenant, i, link);
  }

  lemma {:induction false} LinkIn(order: seq<Meta>, s: Snapshot, supply: Supply, tenant: string, link: Link, i: nat,
      j: nat, c: Column)
    requires AllGood(order) && IsLink(order, s, supply, i, j, c, link)
    ensures link in AllLinks(order, s, supply, tenant, |order|)
  {
    TableLinkIff(order, s, supply, tenant, i, link);
    LinksOfTables(order, s, supply, tenant, link);
  }

  /** What patching does to one cell: the value a link for it writes, or nothing. */
  lemma PatchedCell(copy: Snapshot, links: seq<Link>, maps: IdMaps, n: Name, j: nat, idField: string, id: string,
      f: string, v: Value)
    requires n in copy && j < |copy[n]| && HasCell(copy[n][j], idField, Text(id)) && f != idField
    requires forall l :: l in links && l.table == n ==> l.idField == idField && l.field != idField
    requires forall l ::
      l in links && l.table == n && l.field == f && l.rowId == id ==> Renamed(maps, l.target, l.value) == v
    ensures var r := PatchAll(copy, links, maps);
      && n in r && |r[n]| == |copy[n]| && HasCell(r[n][j], idField, Text(id))
      && ((exists l :: l in links && l.table == n && l.field == f && l.rowId == id) ==> HasCell(r[n][j], f, v))
      && (!(exists l :: l in links && l.table == n && l.field == f && l.rowId == id) ==>
            (f in r[n][j] <==> f in copy[n][j]) && (f in copy[n][j] ==> r[n][j][f] == copy[n][j][f]))
    decreases |links|
  {
    if links != [] {
      var first, rest := links[0], links[1..];
      assert forall l :: l in links <==> l == first || l in rest;
      var next := Patch(copy, first, maps);
      PatchedCell(next, rest, maps, n, j, idField, id, f, v);
      PatchedStays(next, rest, maps, n, j, idField, id, f, v);
    }
  }

  /** A cell that already holds what its links would write keeps it. */
  lemma PatchedStays(copy: Snapshot, links: seq<Link>, maps: IdMaps, n: Name, j: nat, idField: string, id: string,
      f: string, v: Value)
    requires n in copy && j < |copy[n]| && HasCell(copy[n][j], idField, Text(id)) && f != idField
    requires forall l :: l in links && l.table == n ==> l.idField == idField && l.field != idField
    requires forall l ::
      l in links && l.table == n && l.field == f && l.rowId == id ==> Renamed(maps, l.target, l.value) == v
    ensures HasCell(copy[n][j], f, v) ==> var r := PatchAll(copy, links, maps);
      n in r && j < |r[n]| && HasCell(r[n][j], f, v)
    decreases |links|
  {
    if links != [] {
      var first, rest := links[0], links[1..];
      assert forall l :: l in links <==> l == first || l in rest;
      PatchedStays(Patch(copy, first, maps), rest, maps, n, j, idField, id, f, v);
    }
  }

  lemma NotPatched(copy: Snapshot, links: seq<Link>, maps: IdMaps, n: Name)
    requires n in copy && forall l :: l in links ==> l.table != n
    ensures n in PatchAll(copy, links, maps) && PatchAll(copy, links, maps)[n] == copy[n]
    decreases |links|
  {
    if links != [] {
      assert links[0] in links;
      assert forall l :: l in links[1..] ==> l in links;
      NotPatched(Patch(copy, links[0], maps), links[1..], maps, n);
    }
  }

  lemma CopiedAt(order: seq<Meta>, s: Snapshot, supply: Supply, tenant: string, n: nat, i: nat)
    requires i < n <= |order| && forall a, b :: 0 <= a < b < |order| ==> order[a].name != order[b].name
    ensures order[i].name in AllCopied(order, s, supply, tenant, n)
    ensures AllCopied(order, s, supply, tenant, n)[order[i].name] == CopiedTable(order, s, supply, tenant, i)
  {
  }

  ghost function InsertedRow(order: seq<Meta>, s: Snapshot, supply: Supply, tenant: string, i: nat, j: nat): Row
    requires i < |order| && j < |RowsOf(s, order[i].name)|
  {
    CopiedRow(order[i], RowsOf(s, order[i].name), supply, tenant, MapsAfter(order, s, supply, i), j)
  }

  /**
   * The final copy, cell by cell: a deferred key that held something is renamed at the end,
   * anything else is as inserted.
   */
  lemma FinalCell(order: seq<Meta>, s: Snapshot, supply: Supply, tenant: string, i: nat, j: nat, f: string)
    requires Restorable(order, s) && Fresh(order, s, supply) && i < |order| && j < |RowsOf(s, order[i].name)|
    ensures var r := Copy(order, s, supply, tenant); var row := RowsOf(s, order[i].name)[j];
      var at := InsertedRow(order, s, supply, tenant, i, j);
      && order[i].name in r && |r[order[i].name]| == |RowsOf(s, order[i].name)|
      && (forall c :: c in Columns(order[i].deferred) && c.field == f && !Empty(row, f) ==>
            HasCell(r[order[i].name][j], f, Renamed(MapsAfter(order, s, supply, |order|), c.target, row[f])))
      && ((forall c :: c in Columns(order[i].deferred) && c.field == f ==> Empty(row, f)) ==>
            (f in r[order[i].name][j] <==> f in at) && (f in at ==> r[order[i].name][j][f] == at[f]))
  {
    var m, n := order[i], order[i].name;
    var copied, links, maps := AllCopied(order, s, supply, tenant, |order|),
      AllLinks(order, s, supply, tenant, |order|), MapsAfter(order, s, supply, |order|);
    var row := RowsOf(s, n)[j];
    CopiedAt(order, s, supply, tenant, |order|, i);
    LinksOfOneTable(order, s, supply, tenant, i);
    if m.deferred == [] {
      ColumnsSplit(m);
      NotPatched(copied, links, maps, n);
    } else {
      InsertedCell(m, row, supply(n, j), tenant,
        MapsDuring(MapsAfter(order, s, supply, i), m, RowsOf(s, n), supply, j + 1), m.idField);
      if f == m.idField {
        IdStays(copied, links, maps, n, j, f, supply(n, j));
      } else if exists c :: c in Columns(m.deferred) && c.field == f && !Empty(row, f) {
        var c :| c in Columns(m.deferred) && c.field == f && !Empty(row, f);
        var link := Link(n, m.idField, supply(n, j), f, c.target, row[f]);
        assert IsLink(order, s, supply, i, j, c, link);
        LinkIn(order, s, supply, tenant, link, i, j, c);
        OneLink(order, s, supply, tenant, i, j, c);
        PatchedCell(copied, links, maps, n, j, m.idField, supply(n, j), f, Renamed(maps, c.target, row[f]));
        SameColumn(m, c);
      } else {
        NoLink(order, s, supply, tenant, i, j, f);
        PatchedCell(copied, links, maps, n, j, m.idField, supply(n, j), f, Null);
      }
    }
  }

  lemma SameColumn(m: Meta, c: Column)
    requires GoodMeta(m) && c in Columns(m.deferred)
    ensures forall d :: d in Columns(m.deferred) && d.field == c.field ==> d == c
  {
    ColumnsSplit(m);
  }

  lemma IdStays(copy: Snapshot, links: seq<Link>, maps: IdMaps, n: Name, j: nat, idField: string, id: string)
    requires n in copy && j < |copy[n]| && HasCell(copy[n][j], idField, Text(id))
    requires forall l :: l in links && l.table == n ==> l.idField == idField && l.field != idField
    ensures var r := PatchAll(copy, links, maps); n in r && |r[n]| == |copy[n]| && HasCell(r[n][j], idField, Text(id))
    decreases |links|
  {
    if links != [] {
      assert forall l :: l in links <==> l == links[0] || l in links[1..];
      IdStays(Patch(copy, links[0], maps), links[1..], maps, n, j, idField, id);
    }
  }

  lemma LinksOfOneTable(order: seq<Meta>, s: Snapshot, supply: Supply, tenant: string, i: nat)
    requires Restorable(order, s) && i < |order|
    ensures forall l :: l in AllLinks(order, s, supply, tenant, |order|) && l.table == order[i].name ==>
      order[i].deferred != [] && l.idField == order[i].idField && l.field != order[i].idField
  {
    forall l | l in AllLinks(order, s, supply, tenant, |order|) && l.table == order[i].name
      ensures order[i].deferred != [] && l.idField == order[i].idField && l.field != order[i].idField
    {
      var a, j, c := LinkFrom(order, s, supply, tenant, l);
      assert a == i;
      ColumnsSplit(order[i]);
      assert c in AllColumns(order[i]);
    }
  }

  lemma OneLink(order: seq<Meta>, s: Snapshot, supply: Supply, tenant: string, i: nat, j: nat, c: Column)
    requires Restorable(order, s) && Fresh(order, s, supply) && i < |order| && j < |RowsOf(s, order[i].name)| &&
      c in Columns(order[i].deferred)
    requires !Empty(RowsOf(s, order[i].name)[j], c.field)
    ensures forall l ::
      l in AllLinks(order, s, supply, tenant, |order|) && l.table == order[i].name && l.field == c.field &&
        l.rowId == supply(order[i].name, j) ==>
      l.target == c.target && l.value == RowsOf(s, order[i].name)[j][c.field]
  {
    forall l | l in AllLinks(order, s, supply, tenant, |order|) && l.table == order[i].name && l.field == c.field &&
      l.rowId == supply(order[i].name, j)
      ensures l.target == c.target && l.value == RowsOf(s, order[i].name)[j][c.field]
    {
      var a, b, d := LinkFrom(order, s, supply, tenant, l);
      assert a == i && b == j;
      SameColumn(order[i], c);
    }
  }

  lemma NoLink(order: seq<Meta>, s: Snapshot, supply: Supply, tenant: string, i: nat, j: nat, f: string)
    requires Restorable(order, s) && Fresh(order, s, supply) && i < |order| && j < |RowsOf(s, order[i].name)|
    requires forall c :: c in Columns(order[i].deferred) && c.field == f ==> Empty(RowsOf(s, order[i].name)[j], f)
    ensures forall l ::
      l in AllLinks(order, s, supply, tenant, |order|) && l.table == order[i].name && l.field == f ==>
        l.rowId != supply(order[i].name, j)
  {
    forall l | l in AllLinks(order, s, supply, tenant, |order|) && l.table == order[i].name && l.field == f
      ensures l.rowId != supply(order[i].name, j)
    {
      var a, b, d := LinkFrom(order, s, supply, tenant, l);
      assert a == i;
    }
  }

  // ----- the theorem -----

  /** Within a table, a row refers only to itself or to rows that come before it. */
  ghost predicate SelfReferencesPointBack(order: seq<Meta>, s: Snapshot) {
    forall i: nat, j: nat, c, l: nat :: Points(order, s, i, j, c, i, l) && c in Columns(order[i].relations) ==> l <= j
  }

  /** Key `c` of row `j` of table `i` is, in the copy, the new id of the row it pointed at. */
  ghost predicate KeyRenamed(order: seq<Meta>, s: Snapshot, supply: Supply, copy: Snapshot, i: nat, j: nat, c: Column,
      k: nat, l: nat) {
    && i < |order| && k < |order| && order[i].name in copy && j < |copy[order[i].name]|
    && HasCell(copy[order[i].name][j], c.field, Text(supply(order[k].name, l)))
  }

  /** The copy is the snapshot with every id, and every key that points at one, renamed. */
  ghost predicate Isomorphic(order: seq<Meta>, s: Snapshot, supply: Supply, copy: Snapshot) {
    && (forall i :: 0 <= i < |order| ==> order[i].name in copy && |copy[order[i].name]| == |RowsOf(s, order[i].name)|)
    && (forall i, j :: 0 <= i < |order| && 0 <= j < |RowsOf(s, order[i].name)| && order[i].idIsUuid ==>
          HasCell(copy[order[i].name][j], order[i].idField, Text(supply(order[i].name, j))))
    && (forall i: nat, j: nat, c, k: nat, l: nat ::
      Points(order, s, i, j, c, k, l) && c in AllColumns(order[i]) ==>
        KeyRenamed(order, s, supply, copy, i, j, c, k, l))
    && (forall i, j, c ::
      0 <= i < |order| && 0 <= j < |RowsOf(s, order[i].name)| && c in AllColumns(order[i]) && c.target != TENANT &&
        Empty(RowsOf(s, order[i].name)[j], c.field) ==>
          Empty(copy[order[i].name][j], c.field))
  }

  /** One key: it comes out renamed unless it is a reference ahead within its own table. */
  lemma KeyOutcome(order: seq<Meta>, s: Snapshot, supply: Supply, tenant: string, i: nat, j: nat, c: Column, k: nat,
      l: nat)
    requires Restorable(order, s) && Fresh(order, s, supply) && Points(order, s, i, j, c, k, l) &&
      c in AllColumns(order[i])
    ensures KeyRenamed(order, s, supply, Copy(order, s, supply, tenant), i, j, c, k, l) <==>
      c in Columns(order[i].deferred) || k < i || l <= j
  {
    var m, rows := order[i], RowsOf(s, order[i].name);
    ColumnsSplit(m);
    FinalCell(order, s, supply, tenant, i, j, c.field);
    if c in Columns(m.deferred) {
      RenamedAtTheEnd(order, s, supply, i, j, c, k, l);
    } else {
      assert order[k].name != TENANT;
      InsertedCell(m, rows[j], supply(m.name, j), tenant,
        MapsDuring(MapsAfter(order, s, supply, i), m, rows, supply, j + 1), c.field);
      RenamedKey(order, s, supply, i, j, c, k, l);
      assert !HasCell(rows[j], c.field, Text(supply(order[k].name, l)));
    }
  }

  lemma EmptyStaysEmpty(order: seq<Meta>, s: Snapshot, supply: Supply, tenant: string, i: nat, j: nat, c: Column)
    requires Restorable(order, s) && Fresh(order, s, supply) && i < |order| && j < |RowsOf(s, order[i].name)|
    requires c in AllColumns(order[i]) && c.target != TENANT && Empty(RowsOf(s, order[i].name)[j], c.field)
    ensures var r := Copy(order, s, supply, tenant);
      order[i].name in r && j < |r[order[i].name]| && Empty(r[order[i].name][j], c.field)
  {
    var m, rows := order[i], RowsOf(s, order[i].name);
    ColumnsSplit(m);
    FinalCell(order, s, supply, tenant, i, j, c.field);
    InsertedCell(m, rows[j], supply(m.name, j), tenant,
      MapsDuring(MapsAfter(order, s, supply, i), m, rows, supply, j + 1), c.field);
    if c in Columns(m.deferred) {
      SameColumn(m, c);
    }
  }

  lemma IdRenamed(order: seq<Meta>, s: Snapshot, supply: Supply, tenant: string, i: nat, j: nat)
    requires Restorable(order, s) && Fresh(order, s, supply) && i < |order| && j < |RowsOf(s, order[i].name)| &&
      order[i].idIsUuid
    ensures var r := Copy(order, s, supply, tenant);
      order[i].name in r && j < |r[order[i].name]| &&
        HasCell(r[order[i].name][j], order[i].idField, Text(supply(order[i].name, j)))
  {
    var m, rows := order[i], RowsOf(s, order[i].name);
    ColumnsSplit(m);
    assert forall c :: c in Columns(m.deferred) ==> c in AllColumns(m);
    FinalCell(order, s, supply, tenant, i, j, m.idField);
    InsertedCell(m, rows[j], supply(m.name, j), tenant,
      MapsDuring(MapsAfter(order, s, supply, i), m, rows, supply, j + 1), m.idField);
  }

  lemma TablesCopied(order: seq<Meta>, s: Snapshot, supply: Supply, tenant: string, i: nat)
    requires Restorable(order, s) && Fresh(order, s, supply) && i < |order|
    ensures var r := Copy(order, s, supply, tenant);
      order[i].name in r && |r[order[i].name]| == |RowsOf(s, order[i].name)|
  {
    CopiedAt(order, s, supply, tenant, |order|, i);
    PatchKeepsSizes(AllCopied(order, s, supply, tenant, |order|), AllLinks(order, s, supply, tenant, |order|),
      MapsAfter(order, s, supply, |order|), order[i].name);
  }

  lemma PatchKeepsSizes(copy: Snapshot, links: seq<Link>, maps: IdMaps, n: Name)
    requires n in copy
    ensures n in PatchAll(copy, links, maps) && |PatchAll(copy, links, maps)[n]| == |copy[n]|
    decreases |links|
  {
  }

  /**
   * The copy is isomorphic to the snapshot exactly when every row that refers
   * to its own table refers to itself or to an earlier row: the id map of a
   * table is filled while its rows are mapped, and a miss keeps the old id.
   */
  lemma RestoreIsIsomorphic(order: seq<Meta>, s: Snapshot, supply: Supply, tenant: string)
    requires Restorable(order, s) && Fresh(order, s, supply)
    ensures Isomorphic(order, s, supply, Copy(order, s, supply, tenant)) <==> SelfReferencesPointBack(order, s)
  {
    if SelfReferencesPointBack(order, s) {
      PointingBackIsIsomorphic(order, s, supply, tenant);
    }
    if Isomorphic(order, s, supply, Copy(order, s, supply, tenant)) {
      IsomorphicPointsBack(order, s, supply, tenant);
    }
  }

  lemma PointingBackIsIsomorphic(order: seq<Meta>, s: Snapshot, supply: Supply, tenant: string)
    requires Restorable(order, s) && Fresh(order, s, supply) && SelfReferencesPointBack(order, s)
    ensures Isomorphic(order, s, supply, Copy(order, s, supply, tenant))
  {
    var copy := Copy(order, s, supply, tenant);
    forall i | 0 <= i < |order| ensures order[i].name in copy && |copy[order[i].name]| == |RowsOf(s, order[i].name)| {
      TablesCopied(order, s, supply, tenant, i);
    }
    forall i, j | 0 <= i < |order| && 0 <= j < |RowsOf(s, order[i].name)| && order[i].idIsUuid
      ensures HasCell(copy[order[i].name][j], order[i].idField, Text(supply(order[i].name, j)))
    {
      IdRenamed(order, s, supply, tenant, i, j);
    }
    forall i: nat, j: nat, c, k: nat, l: nat | Points(order, s, i, j, c, k, l) && c in AllColumns(order[i])
      ensures KeyRenamed(order, s, supply, copy, i, j, c, k, l) {
      KeyOutcome(order, s, supply, tenant, i, j, c, k, l);
      KeysPointBack(order, s, i, j, c, k, l);
    }
    forall i, j, c | 0 <= i < |order| && 0 <= j < |RowsOf(s, order[i].name)| && c in AllColumns(order[i]) &&
      c.target != TENANT && Empty(RowsOf(s, order[i].name)[j], c.field)
      ensures Empty(copy[order[i].name][j], c.field)
    {
      EmptyStaysEmpty(order, s, supply, tenant, i, j, c);
    }
  }

  lemma IsomorphicPointsBack(order: seq<Meta>, s: Snapshot, supply: Supply, tenant: string)
    requires Restorable(order, s) && Fresh(order, s, supply) &&
      Isomorphic(order, s, supply, Copy(order, s, supply, tenant))
    ensures SelfReferencesPointBack(order, s)
  {
    forall i: nat, j: nat, c, l: nat | Points(order, s, i, j, c, i, l) && c in Columns(order[i].relations)
      ensures l <= j {
      ColumnsSplit(order[i]);
      assert KeyRenamed(order, s, supply, Copy(order, s, supply, tenant), i, j, c, i, l);
      KeyOutcome(order, s, supply, tenant, i, j, c, i, l);
    }
  }

  lemma KeysPointBack(order: seq<Meta>, s: Snapshot, i: nat, j: nat, c: Column, k: nat, l: nat)
    requires Restorable(order, s) && SelfReferencesPointBack(order, s) && Points(order, s, i, j, c, k, l) &&
      c in AllColumns(order[i])
    ensures c in Columns(order[i].deferred) || k < i || l <= j
  {
    if c !in Columns(order[i].deferred) && k == i {
      assert c in Columns(order[i].relations);
    }
  }

  /** Every key that holds something holds the id of a row of the snapshot. */
  ghost predicate KeysClosed(order: seq<Meta>, s: Snapshot) {
    forall i, j, c, k ::
      (0 <= i < |order| && 0 <= j < |RowsOf(s, order[i].name)| && c in AllColumns(order[i])
       && 0 <= k < |order| && c.target == order[k].name && !Empty(RowsOf(s, order[i].name)[j], c.field)) ==>
         exists l: nat :: Points(order, s, i, j, c, k, l)
  }

  /** No key of an isomorphic copy leaves it: each one holds the id of a row of the copy. */
  lemma NothingPointsOutside(order: seq<Meta>, s: Snapshot, supply: Supply, copy: Snapshot, i: nat, j: nat, c: Column,
      k: nat) returns (l: nat)
    requires Restorable(order, s) && KeysClosed(order, s) && Isomorphic(order, s, supply, copy)
    requires i < |order| && j < |RowsOf(s, order[i].name)| && c in AllColumns(order[i]) && k < |order| &&
      c.target == order[k].name
    requires !Empty(copy[order[i].name][j], c.field)
    ensures l < |copy[order[k].name]| && order[k].idField in copy[order[k].name][l]
    ensures copy[order[k].name][l][order[k].idField] == copy[order[i].name][j][c.field]
  {
    assert c.target != TENANT;
    assert !Empty(RowsOf(s, order[i].name)[j], c.field);
    l :| Points(order, s, i, j, c, k, l);
    assert KeyRenamed(order, s, supply, copy, i, j, c, k, l);
  }

  /** Columns that are no id, no tenant, no rewritten field and no key are carried over as they are. */
  lemma OtherColumnsKept(order: seq<Meta>, s: Snapshot, supply: Supply, tenant: string, i: nat, j: nat, f: string)
    requires Restorable(order, s) && Fresh(order, s, supply) && i < |order| && j < |RowsOf(s, order[i].name)|
    requires IsPlain(order[i], f)
    ensures var r := Copy(order, s, supply, tenant); var row := RowsOf(s, order[i].name)[j];
      order[i].name in r && j < |r[order[i].name]| && (f in r[order[i].name][j] <==> f in row) &&
        (f in row ==> r[order[i].name][j][f] == row[f])
  {
    var m, rows := order[i], RowsOf(s, order[i].name);
    ColumnsSplit(m);
    FinalCell(order, s, supply, tenant, i, j, f);
    InsertedCell(m, rows[j], supply(m.name, j), tenant,
      MapsDuring(MapsAfter(order, s, supply, i), m, rows, supply, j + 1), f);
  }

  /** The order the restore uses does put every target of a kept key first, or at the table itself. */
  lemma ComputedOrderFits(order: seq<Name>, kept: Relations, i: nat, k: nat, r: Relation)
    requires IsTopological(Dependencies(kept), order) && i < |order| && k < |order|
    requires order[i] in kept && r in kept[order[i]] && r.target == order[k]
    ensures k <= i
  {
    if k != i {
      var g := Dependencies(kept);
      assert order[k] in Elements(order);
      assert order[k] in g[order[i]];
      assert order[k] in Elements(order[..i]);
    }
  }

  // ----- the proviso is needed -----

  const LINES := Meta(Name("LineItem"), "id", true, [], [Relation(["parentLineItemId"], Name("LineItem"))], [])

  /** Two bill lines, the first of which hangs off the second. */
  const OUT_OF_ORDER: Snapshot := map[Name("LineItem") := [
    map["id" := Text("a"), "parentLineItemId" := Text("b")],
    map["id" := Text("b"), "parentLineItemId" := Null]]]

  const PARENT := Column("parentLineItemId", Name("LineItem"))

  lemma LinesColumns()
    ensures Columns(LINES.relations) == [PARENT] && Columns(LINES.deferred) == [] && AllColumns(LINES) == [PARENT]
  {
    assert Columns([]) == [];
  }

  lemma NamesDiffer()
    ensures "parentLineItemId" != "id" && "parentLineItemId" != TENANT_ID && "id" != TENANT_ID
    ensures LINES.name != TENANT
  {
    assert |"parentLineItemId"| != |"id"| && |"parentLineItemId"| != |TENANT_ID| && |TENANT_ID| != |"id"|;
    assert LINES.name.text[0] != TENANT.text[0];
  }

  lemma OutOfOrderIds()
    ensures GoodIds(LINES, RowsOf(OUT_OF_ORDER, LINES.name))
  {
    var rows := RowsOf(OUT_OF_ORDER, LINES.name);
    assert |rows| == 2 && rows[0]["id"] == Text("a") && rows[1]["id"] == Text("b");
    assert "a"[0] != "b"[0];
  }

  lemma OutOfOrderIsRestorable()
    ensures Restorable([LINES], OUT_OF_ORDER)
  {
    LinesColumns();
    NamesDiffer();
    OutOfOrderIds();
  }

  /** A row that hangs off a later one keeps the original's parent: such a snapshot is copied wrongly. */
  lemma ReferencesAheadAreLost(supply: Supply, tenant: string)
    requires Fresh([LINES], OUT_OF_ORDER, supply)
    ensures Restorable([LINES], OUT_OF_ORDER)
    ensures !Isomorphic([LINES], OUT_OF_ORDER, supply, Copy([LINES], OUT_OF_ORDER, supply, tenant))
  {
    OutOfOrderIsRestorable();
    LinesColumns();
    assert Points([LINES], OUT_OF_ORDER, 0, 0, PARENT, 0, 1);
    RestoreIsIsomorphic([LINES], OUT_OF_ORDER, supply, tenant);
  }
}
