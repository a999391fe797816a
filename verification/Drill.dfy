/** From the schema to the restored copy: the computed order is one the restore can use. */
module Drill {
  import opened Graphs
  import opened TableOrder
  import opened Restore
  import opened RestoreProof

  /** `metas` are the tables in the computed order, each with the keys it keeps and those deferred. */
  ghost predicate Describes(metas: seq<Meta>, order: seq<Name>, kept: Relations, deferred: Relations) {
    && |metas| == |order|
    && forall i :: 0 <= i < |order| ==>
         && metas[i].name == order[i] && order[i] in kept && order[i] in deferred
         && metas[i].relations == kept[order[i]] && metas[i].deferred == deferred[order[i]]
  }

  /**
   * What is asked of the tables and the snapshot, whatever the order: keys are keys, and point at
   * tables with ids of their own.
   */
  ghost predicate GoodData(metas: seq<Meta>, s: Snapshot) {
    && (forall i :: 0 <= i < |metas| ==>
          GoodMeta(metas[i]) && GoodIds(metas[i], RowsOf(s, metas[i].name)) && metas[i].name != TENANT)
    && (forall i, k, c ::
      0 <= i < |metas| && 0 <= k < |metas| && c in AllColumns(metas[i]) && c.target == metas[k].name ==>
          metas[k].idIsUuid)
  }

  /** A column belongs to one of the foreign keys. */
  lemma {:induction false} ColumnFrom(rels: seq<Relation>, c: Column) returns (r: Relation)
    requires c in Columns(rels)
    ensures r in rels && r.target == c.target
    decreases |rels|
  {
    if c.target == rels[0].target {
      r := rels[0];
    } else {
      r := ColumnFrom(rels[1..], c);
    }
  }

  lemma TargetsComeFirst(metas: seq<Meta>, order: seq<Name>, kept: Relations, deferred: Relations, i: nat, k: nat,
      c: Column)
    requires IsTopological(Dependencies(kept), order) && Describes(metas, order, kept, deferred)
    requires i < |metas| && k < |metas| && c in Columns(metas[i].relations) && c.target == metas[k].name
    ensures k <= i
  {
    var r := ColumnFrom(metas[i].relations, c);
    ComputedOrderFits(order, kept, i, k, r);
  }

  /** The computed order is one the restore can use. */
  lemma ComputedOrderIsRestorable(metas: seq<Meta>, order: seq<Name>, kept: Relations, deferred: Relations, s: Snapshot)
    requires IsTopological(Dependencies(kept), order) && Describes(metas, order, kept, deferred) && GoodData(metas, s)
    ensures Restorable(metas, s)
  {
    forall i, k, c | 0 <= i < |metas| && 0 <= k < |metas| && c in AllColumns(metas[i]) && c.target == metas[k].name
      ensures metas[k].idIsUuid && (c in Columns(metas[i].relations) ==> k <= i)
    {
      if c in Columns(metas[i].relations) {
        TargetsComeFirst(metas, order, kept, deferred, i, k, c);
      }
    }
  }

  /** The tables in the computed order, with the keys each keeps and those deferred. */
  function InOrder(tables: map<Name, Meta>, order: seq<Name>, kept: Relations, deferred: Relations): (metas: seq<Meta>)
    requires forall i :: 0 <= i < |order| ==> order[i] in tables && order[i] in kept && order[i] in deferred
    requires forall n :: n in tables ==> tables[n].name == n
    ensures Describes(metas, order, kept, deferred)
  {
    seq(|order|, i requires 0 <= i < |order| =>
      tables[order[i]].(relations := kept[order[i]], deferred := deferred[order[i]]))
  }

  lemma OrderIsKnown(schema: Schema, tables: map<Name, Meta>, order: seq<Name>, kept: Relations, deferred: Relations)
    requires IsTopological(Dependencies(kept), order) && Accounted(schema, kept, deferred)
    requires tables.Keys == schema.relations.Keys
    ensures forall i :: 0 <= i < |order| ==> order[i] in tables && order[i] in kept && order[i] in deferred
  {
    forall i | 0 <= i < |order| ensures order[i] in tables && order[i] in kept && order[i] in deferred {
      assert order[i] in Elements(order);
    }
  }

  /**
   * A drill from the schema on: it cannot be run exactly when some cycle of
   * tables has only required keys; otherwise the copy it makes is isomorphic
   * to the snapshot exactly when references within a table point back.
   */
  method RunDrill(schema: Schema, rank: Collation, tables: map<Name, Meta>, s: Snapshot, supply: Supply, tenant: string)
    returns (possible: bool, metas: seq<Meta>, copy: Snapshot)
    requires schema.Valid() && tables.Keys == schema.relations.Keys && forall n :: n in tables ==> tables[n].name == n
    ensures !possible <==> exists c :: IsRequiredCycle(schema, schema.relations, c)
    ensures possible ==> copy == Copy(metas, s, supply, tenant)
    ensures possible && GoodData(metas, s) && Fresh(metas, s, supply) ==>
      (Isomorphic(metas, s, supply, copy) <==> SelfReferencesPointBack(metas, s))
  {
    var outcome, steps := InsertOrder(schema, rank);
    metas, copy := [], map[];
    possible := outcome.Ordered?;
    if possible {
      var order, kept, deferred := outcome.order, outcome.kept, outcome.deferred;
      OrderIsKnown(schema, tables, order, kept, deferred);
      metas := InOrder(tables, order, kept, deferred);
      var expected, restored;
      copy, expected, restored := RestoreDrill(metas, s, supply, tenant);
      if GoodData(metas, s) && Fresh(metas, s, supply) {
        ComputedOrderIsRestorable(metas, order, kept, deferred, s);
        RestoreIsIsomorphic(metas, s, supply, tenant);
      }
    }
  }
}
