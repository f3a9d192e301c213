/**
 * The parsed schema model that the DBML parser hands to the renderer.
 * Only the attributes the renderer reads are kept; every identifier is the
 * parser's numeric id.
 */
module Dbml {

  datatype Table = Table(id: nat, name: string)

  /** A column; `table` is the table that owns it. */
  datatype Field = Field(id: nat, name: string, table: Table)

  /** One side of a relationship: the fields it joins and its cardinality marker ("1", "*", ...). */
  datatype Endpoint = Endpoint(fields: seq<Field>, relation: string)

  /** A relationship; `schemaId` is the id of the schema that declares it. */
  datatype Ref = Ref(id: nat, schemaId: nat, endpoints: (Endpoint, Endpoint))

  datatype Schema = Schema(id: nat, tables: seq<Table>, refs: seq<Ref>)

  datatype Database = Database(schemas: seq<Schema>)

  /** Both endpoints name at least one field, so `fields[0]` exists on each side. */
  predicate RefWellFormed(r: Ref)
  {
    |r.endpoints.0.fields| > 0 && |r.endpoints.1.fields| > 0
  }

  predicate SchemasWellFormed(schemas: seq<Schema>)
  {
    forall i, j :: 0 <= i < |schemas| && 0 <= j < |schemas[i].refs| ==> RefWellFormed(schemas[i].refs[j])
  }

  predicate WellFormed(db: Database)
  {
    SchemasWellFormed(db.schemas)
  }

  /** Every table of every schema, schema by schema, in declaration order. */
  function AllTables(schemas: seq<Schema>): seq<Table>
  {
    if schemas == [] then [] else schemas[0].tables + AllTables(schemas[1..])
  }

  /** Every relationship of every schema, schema by schema, in declaration order. */
  function AllRefs(schemas: seq<Schema>): seq<Ref>
  {
    if schemas == [] then [] else schemas[0].refs + AllRefs(schemas[1..])
  }

  /** The number of tables summed over the schemas. */
  function TableCount(schemas: seq<Schema>): nat
  {
    if schemas == [] then 0 else |schemas[0].tables| + TableCount(schemas[1..])
  }

  /** The number of relationships summed over the schemas. */
  function RefCount(schemas: seq<Schema>): nat
  {
    if schemas == [] then 0 else |schemas[0].refs| + RefCount(schemas[1..])
  }

  lemma {:induction false} AllTablesSnoc(schemas: seq<Schema>, s: Schema)
    ensures AllTables(schemas + [s]) == AllTables(schemas) + s.tables
  {
    if schemas == [] {
      assert AllTables([s]) == s.tables + AllTables([]);
    } else {
      assert (schemas + [s])[1..] == schemas[1..] + [s];
      AllTablesSnoc(schemas[1..], s);
    }
  }

  lemma {:induction false} AllRefsSnoc(schemas: seq<Schema>, s: Schema)
    ensures AllRefs(schemas + [s]) == AllRefs(schemas) + s.refs
  {
    if schemas == [] {
      assert AllRefs([s]) == s.refs + AllRefs([]);
    } else {
      assert (schemas + [s])[1..] == schemas[1..] + [s];
      AllRefsSnoc(schemas[1..], s);
    }
  }

  /** The collected lists have as many elements as the schemas declare in total. */
  lemma {:induction false} AllCounts(schemas: seq<Schema>)
    ensures |AllTables(schemas)| == TableCount(schemas)
    ensures |AllRefs(schemas)| == RefCount(schemas)
  {
    if schemas != [] {
      AllCounts(schemas[1..]);
    }
  }
}
