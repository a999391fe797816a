/**
 * A restore drill: every row of a snapshot is copied under a fresh id, its
 * foreign keys are rewritten through the ids handed out so far, and the
 * deferred ones are patched into the finished copy.
 */
module Restore {
  import opened Graphs
  import opened TableOrder

  datatype Value = Null | Text(text: string) | Other(tag: int)
  type Row = map<string, Value>
  type Snapshot = map<Name, seq<Row>>
  type IdMaps = map<Name, map<string, string>>

  datatype Meta = Meta(
    name: Name, idField: string, idIsUuid: bool, uniqueFields: seq<string>,
    relations: seq<Relation>, deferred: seq<Relation>)

  /** One column of a foreign key. */
  datatype Column = Column(field: string, target: Name)

  /** A deferred foreign key still to be written: which row, which column, and the value it had. */
  datatype Link = Link(table: Name, idField: string, rowId: string, field: string, target: Name, value: Value)

  /** The id handed to the `k`-th row copied into a table. */
  type Supply = (Name, nat) -> string

  const TENANT := Name("Tenant")
  const TENANT_ID := "tenantId"

  /** The columns of foreign keys, in the order the restore visits them. */
  function Columns(rels: seq<Relation>): seq<Column> {
    if rels == [] then [] else
      var fields := rels[0].fieldNames;
      seq(|fields|, i requires 0 <= i < |fields| => Column(fields[i], rels[0].target)) + Columns(rels[1..])
  }

  function RowsOf(s: Snapshot, n: Name): seq<Row> {
    if n in s then s[n] else []
  }

  predicate Empty(row: Row, f: string) {
    f !in row || row[f].Null?
  }

  function Renamed(maps: IdMaps, target: Name, v: Value): Value {
    if v.Text? && target in maps && v.text in maps[target] then Text(maps[target][v.text]) else v
  }

  // ----- one row -----

  predicate Skipped(out: Row, c: Column) {
    c.target == TENANT || c.field == TENANT_ID || Empty(out, c.field)
  }

  function MapKept(out: Row, cols: seq<Column>, maps: IdMaps): Row
    decreases |cols|
  {
    if cols == [] then out else
      var c := cols[0];
      MapKept(if Skipped(out, c) then out else out[c.field := Renamed(maps, c.target, out[c.field])], cols[1..], maps)
  }

  function Defer(meta: Meta, out: Row, cols: seq<Column>): Row
    decreases |cols|
  {
    if cols == [] then out else
      var c := cols[0];
      Defer(meta, if Empty(out, c.field) || !meta.idIsUuid then out else out[c.field := Null], cols[1..])
  }

  function LinksOf(meta: Meta, out: Row, newId: string, cols: seq<Column>): seq<Link>
    decreases |cols|
  {
    if cols == [] then [] else
      var c := cols[0];
      if Empty(out, c.field) || !meta.idIsUuid then LinksOf(meta, out, newId, cols[1..]) else
        var link := Link(meta.name, meta.idField, newId, c.field, c.target, out[c.field]);
        [link] + LinksOf(meta, out[c.field := Null], newId, cols[1..])
  }

  function MakeUnique(meta: Meta, out: Row, newId: string, fields: seq<string>): Row
    decreases |fields|
  {
    if fields == [] then out else
      var f := fields[0];
      var value := if meta.name == Name("User") && f == "email" then "restore-drill+" + newId + "@invalid.local"
        else newId;
      MakeUnique(meta, if Empty(out, f) || !meta.idIsUuid then out else out[f := Text(value)], newId, fields[1..])
  }

  function Stamped(meta: Meta, row: Row, newId: string, tenant: string): Row {
    (if meta.idIsUuid then row[meta.idField := Text(newId)] else row - {meta.idField})[TENANT_ID := Text(tenant)]
  }

  function Kept(meta: Meta, row: Row, newId: string, tenant: string, maps: IdMaps): Row {
    MapKept(Stamped(meta, row, newId, tenant), Columns(meta.relations), maps)
  }

  /** A row as it is first inserted, with the ids known when it was mapped. */
  function Inserted(meta: Meta, row: Row, newId: string, tenant: string, maps: IdMaps): Row {
    MakeUnique(meta, Defer(meta, Kept(meta, row, newId, tenant, maps), Columns(meta.deferred)), newId,
      meta.uniqueFields)
  }

  function LinksOfRow(meta: Meta, row: Row, newId: string, tenant: string, maps: IdMaps): seq<Link> {
    LinksOf(meta, Kept(meta, row, newId, tenant, maps), newId, Columns(meta.deferred))
  }

  method MapRow(meta: Meta, row: Row, newId: string, tenant: string, maps: IdMaps) returns (out: Row, links: seq<Link>)
    ensures out == Inserted(meta, row, newId, tenant, maps)
    ensures links == LinksOfRow(meta, row, newId, tenant, maps)
  {
    out := RenameKept(Stamped(meta, row, newId, tenant), Columns(meta.relations), maps);
    out, links := SetAside(meta, out, newId, Columns(meta.deferred));
    out := ReplaceUnique(meta, out, newId, meta.uniqueFields);
  }

  method RenameKept(row: Row, cols: seq<Column>, maps: IdMaps) returns (out: Row)
    ensures out == MapKept(row, cols, maps)
  {
    out := row;
    for k := 0 to |cols|
      invariant MapKept(out, cols[k..], maps) == MapKept(row, cols, maps)
    {
      var c := cols[k];
      if !Skipped(out, c) {
        out := out[c.field := Renamed(maps, c.target, out[c.field])];
      }
    }
  }

  /** Empties the deferred keys and notes what they held. */
  method SetAside(meta: Meta, row: Row, newId: string, cols: seq<Column>) returns (out: Row, links: seq<Link>)
    ensures out == Defer(meta, row, cols)
    ensures links == LinksOf(meta, row, newId, cols)
  {
    out, links := row, [];
    for k := 0 to |cols|
      invariant Defer(meta, out, cols[k..]) == Defer(meta, row, cols)
      invariant links + LinksOf(meta, out, newId, cols[k..]) == LinksOf(meta, row, newId, cols)
    {
      var c := cols[k];
      if !Empty(out, c.field) && meta.idIsUuid {
        links := links + [Link(meta.name, meta.idField, newId, c.field, c.target, out[c.field])];
        out := out[c.field := Null];
      }
    }
  }

  method ReplaceUnique(meta: Meta, row: Row, newId: string, fields: seq<string>) returns (out: Row)
    ensures out == MakeUnique(meta, row, newId, fields)
  {
    out := row;
    for k := 0 to |fields|
      invariant MakeUnique(meta, out, newId, fields[k..]) == MakeUnique(meta, row, newId, fields)
    {
      var f := fields[k];
      if !Empty(out, f) && meta.idIsUuid {
        var value := if meta.name == Name("User") && f == "email" then "restore-drill+" + newId + "@invalid.local"
          else newId;
        out := out[f := Text(value)];
      }
    }
  }

  // ----- one table, every table -----

  /** The ids handed to the first `n` rows of a table. */
  function Ids(meta: Meta, rows: seq<Row>, supply: Supply, n: nat): map<string, string>
    requires n <= |rows|
  {
    if n == 0 || !meta.idIsUuid then map[] else
      var earlier := Ids(meta, rows, supply, n - 1);
      if meta.idField in rows[n - 1] && rows[n - 1][meta.idField].Text?
      then earlier[rows[n - 1][meta.idField].text := supply(meta.name, n - 1)]
      else earlier
  }

  function MapsDuring(maps: IdMaps, meta: Meta, rows: seq<Row>, supply: Supply, n: nat): IdMaps
    requires n <= |rows|
  {
    maps[meta.name := Ids(meta, rows, supply, n)]
  }

  function CopiedRow(meta: Meta, rows: seq<Row>, supply: Supply, tenant: string, maps: IdMaps, j: nat): Row
    requires j < |rows|
  {
    Inserted(meta, rows[j], supply(meta.name, j), tenant, MapsDuring(maps, meta, rows, supply, j + 1))
  }

  function CopiedRows(meta: Meta, rows: seq<Row>, supply: Supply, tenant: string, maps: IdMaps): (out: seq<Row>)
    ensures |out| == |rows|
  {
    seq(|rows|, j requires 0 <= j < |rows| => CopiedRow(meta, rows, supply, tenant, maps, j))
  }

  function LinksOfTable(meta: Meta, rows: seq<Row>, supply: Supply, tenant: string, maps: IdMaps, n: nat): seq<Link>
    requires n <= |rows|
  {
    if n == 0 then [] else
      LinksOfTable(meta, rows, supply, tenant, maps, n - 1)
      + LinksOfRow(meta, rows[n - 1], supply(meta.name, n - 1), tenant, MapsDuring(maps, meta, rows, supply, n))
  }

  /** The ids known once the first `i` tables have been copied. */
  function MapsAfter(order: seq<Meta>, s: Snapshot, supply: Supply, i: nat): IdMaps
    requires i <= |order|
  {
    if i == 0 then map[] else
      var before, rows := MapsAfter(order, s, supply, i - 1), RowsOf(s, order[i - 1].name);
      if rows == [] then before else MapsDuring(before, order[i - 1], rows, supply, |rows|)
  }

  function CopiedTable(order: seq<Meta>, s: Snapshot, supply: Supply, tenant: string, i: nat): seq<Row>
    requires i < |order|
  {
    CopiedRows(order[i], RowsOf(s, order[i].name), supply, tenant, MapsAfter(order, s, supply, i))
  }

  function AllLinks(order: seq<Meta>, s: Snapshot, supply: Supply, tenant: string, i: nat): seq<Link>
    requires i <= |order|
  {
    if i == 0 then [] else
      var rows := RowsOf(s, order[i - 1].name);
      AllLinks(order, s, supply, tenant, i - 1)
      + LinksOfTable(order[i - 1], rows, supply, tenant, MapsAfter(order, s, supply, i - 1), |rows|)
  }

  function AllCopied(order: seq<Meta>, s: Snapshot, supply: Supply, tenant: string, i: nat): Snapshot
    requires i <= |order|
  {
    if i == 0 then map[]
      else AllCopied(order, s, supply, tenant, i - 1)[order[i - 1].name := CopiedTable(order, s, supply, tenant, i - 1)]
  }

  // ----- the deferred foreign keys -----

  function PatchRows(rows: seq<Row>, link: Link, maps: IdMaps): seq<Row> {
    seq(|rows|, j requires 0 <= j < |rows| =>
      if link.idField in rows[j] && rows[j][link.idField] == Text(link.rowId)
      then rows[j][link.field := Renamed(maps, link.target, link.value)] else rows[j])
  }

  function Patch(copy: Snapshot, link: Link, maps: IdMaps): Snapshot {
    if link.table in copy then copy[link.table := PatchRows(copy[link.table], link, maps)] else copy
  }

  function PatchAll(copy: Snapshot, links: seq<Link>, maps: IdMaps): Snapshot
    decreases |links|
  {
    if links == [] then copy else PatchAll(Patch(copy, links[0], maps), links[1..], maps)
  }

  /** The copy a drill makes of a snapshot. */
  function Copy(order: seq<Meta>, s: Snapshot, supply: Supply, tenant: string): Snapshot {
    PatchAll(AllCopied(order, s, supply, tenant, |order|), AllLinks(order, s, supply, tenant, |order|),
      MapsAfter(order, s, supply, |order|))
  }

  method CopyTable(meta: Meta, rows: seq<Row>, supply: Supply, tenant: string, maps0: IdMaps)
      returns (out: seq<Row>, links: seq<Link>, maps: IdMaps)
    requires rows != []
    ensures out == CopiedRows(meta, rows, supply, tenant, maps0)
    ensures links == LinksOfTable(meta, rows, supply, tenant, maps0, |rows|)
    ensures maps == MapsDuring(maps0, meta, rows, supply, |rows|)
  {
    out, links, maps := [], [], maps0[meta.name := map[]];
    for j := 0 to |rows|
      invariant |out| == j && forall k :: 0 <= k < j ==> out[k] == CopiedRow(meta, rows, supply, tenant, maps0, k)
      invariant links == LinksOfTable(meta, rows, supply, tenant, maps0, j)
      invariant maps == MapsDuring(maps0, meta, rows, supply, j)
    {
      var newId := supply(meta.name, j);
      if meta.idIsUuid && meta.idField in rows[j] && rows[j][meta.idField].Text? {
        maps := maps[meta.name := maps[meta.name][rows[j][meta.idField].text := newId]];
      }
      assert maps == MapsDuring(maps0, meta, rows, supply, j + 1);
      var row, more := MapRow(meta, rows[j], newId, tenant, maps);
      out, links := out + [row], links + more;
    }
  }

  /** What the first `i` tables leave: the rows copied, the links noted and the ids known. */
  ghost predicate CopiedSoFar(order: seq<Meta>, s: Snapshot, supply: Supply, tenant: string, i: nat,
      copy: Snapshot, links: seq<Link>, maps: IdMaps) {
    && i <= |order| && copy == AllCopied(order, s, supply, tenant, i)
    && links == AllLinks(order, s, supply, tenant, i) && maps == MapsAfter(order, s, supply, i)
  }

  /** A table without rows leaves the ids known and the links as they are. */
  lemma EmptyTableMore(order: seq<Meta>, s: Snapshot, supply: Supply, tenant: string, i: nat,
      copy: Snapshot, links: seq<Link>, maps: IdMaps)
    requires i < |order| && CopiedSoFar(order, s, supply, tenant, i, copy, links, maps)
    requires RowsOf(s, order[i].name) == []
    ensures CopiedSoFar(order, s, supply, tenant, i + 1, copy[order[i].name := []], links, maps)
  {
    assert CopiedTable(order, s, supply, tenant, i) == [];
  }

  lemma OneTableMore(order: seq<Meta>, s: Snapshot, supply: Supply, tenant: string, i: nat,
      copy: Snapshot, links: seq<Link>, maps: IdMaps)
    requires i < |order| && CopiedSoFar(order, s, supply, tenant, i, copy, links, maps)
    requires RowsOf(s, order[i].name) != []
    ensures var m, rows := order[i], RowsOf(s, order[i].name);
      CopiedSoFar(order, s, supply, tenant, i + 1, copy[m.name := CopiedRows(m, rows, supply, tenant, maps)],
        links + LinksOfTable(m, rows, supply, tenant, maps, |rows|), MapsDuring(maps, m, rows, supply, |rows|))
  {
  }

  ghost predicate ExpectedAt(order: seq<Meta>, s: Snapshot, expected: map<Name, nat>, k: nat) {
    k < |order| && order[k].name in expected && expected[order[k].name] == |RowsOf(s, order[k].name)|
  }

  method CopyAll(order: seq<Meta>, s: Snapshot, supply: Supply, tenant: string)
    returns (copy: Snapshot, links: seq<Link>, maps: IdMaps, expected: map<Name, nat>)
    ensures copy == AllCopied(order, s, supply, tenant, |order|)
    ensures links == AllLinks(order, s, supply, tenant, |order|)
    ensures maps == MapsAfter(order, s, supply, |order|)
    ensures copy.Keys == expected.Keys
    ensures forall i :: 0 <= i < |order| ==> ExpectedAt(order, s, expected, i)
  {
    copy, links, maps, expected := map[], [], map[], map[];
    for i := 0 to |order|
      invariant CopiedSoFar(order, s, supply, tenant, i, copy, links, maps)
      invariant copy.Keys == expected.Keys
      invariant forall k :: 0 <= k < i ==> ExpectedAt(order, s, expected, k)
    {
      var rows := RowsOf(s, order[i].name);
      ghost var before := expected;
      expected := expected[order[i].name := |rows|];
      forall k | 0 <= k <= i ensures ExpectedAt(order, s, expected, k) {
        assert k < i ==> ExpectedAt(order, s, before, k);
      }
      if rows == [] {
        EmptyTableMore(order, s, supply, tenant, i, copy, links, maps);
        copy := copy[order[i].name := []];
      } else {
        OneTableMore(order, s, supply, tenant, i, copy, links, maps);
        var out, more, maps' := CopyTable(order[i], rows, supply, tenant, maps);
        copy, links, maps := copy[order[i].name := out], links + more, maps';
      }
    }
  }

  /** The drill's transaction: copy every table in order, patch the deferred links, count what is there. */
  method RestoreDrill(order: seq<Meta>, s: Snapshot, supply: Supply, tenant: string)
    returns (copy: Snapshot, expected: map<Name, nat>, restored: map<Name, nat>)
    ensures copy == Copy(order, s, supply, tenant)
    ensures forall i :: 0 <= i < |order| ==> ExpectedAt(order, s, expected, i)
    ensures forall n :: n in restored <==> n in expected && expected[n] != 0
    ensures forall n :: n in restored ==> n in copy && restored[n] == |copy[n]|
  {
    var links, maps;
    copy, links, maps, expected := CopyAll(order, s, supply, tenant);
    ghost var inserted := copy;
    for k := 0 to |links|
      invariant PatchAll(copy, links[k..], maps) == PatchAll(inserted, links, maps)
      invariant copy.Keys == expected.Keys
    {
      copy := Patch(copy, links[k], maps);
    }
    restored := map n | n in copy && expected[n] != 0 :: |copy[n]|;
  }
}
