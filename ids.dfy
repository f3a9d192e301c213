/** The identifiers the diagram derives from schema entities (src/utils/ids.ts). */
module Ids {
  import opened Decimal
  import opened Dbml

  /** `table-<table id>`: the id of the node drawn for a table. */
  function TableId(t: Table): (r: string)
    ensures |r| > 6 && r[..6] == "table-"
    ensures IsDigitString(r[6..]) && StringToNat(r[6..]) == t.id
  {
    StringToNatOfNatToString(t.id);
    var r := "table-" + NatToString(t.id);
    assert r[6..] == NatToString(t.id);
    r
  }

  /** `relation-<schema id>-<ref id>`: the id of the edge drawn for a relationship. */
  function RelationId(r: Ref): (s: string)
    ensures |s| > 9 && s[..9] == "relation-"
  {
    "relation-" + NatToString(r.schemaId) + "-" + NatToString(r.id)
  }

  /** A table id depends on the table's numeric id alone, and different tables get different ids. */
  lemma TableIdInjective(t1: Table, t2: Table)
    ensures TableId(t1) == TableId(t2) <==> t1.id == t2.id
  {
    if TableId(t1) == TableId(t2) {
      assert TableId(t1)[6..] == TableId(t2)[6..];
    }
  }

  /**
   * A relation id depends on the schema id and the ref id alone, and no two
   * (schema id, ref id) pairs share one: a dash cannot occur inside a number.
   */
  lemma RelationIdInjective(r1: Ref, r2: Ref)
    ensures RelationId(r1) == RelationId(r2) <==> (r1.schemaId == r2.schemaId && r1.id == r2.id)
  {
    if RelationId(r1) == RelationId(r2) {
      var a, b := NatToString(r1.schemaId), NatToString(r2.schemaId);
      var x, y := NatToString(r1.id), NatToString(r2.id);
      assert RelationId(r1) == "relation-" + (a + "-" + x);
      assert RelationId(r2) == "relation-" + (b + "-" + y);
      assert a + "-" + x == RelationId(r1)[9..];
      SplitAtDash(a, x, b, y);
      NatToStringInjective(r1.schemaId, r2.schemaId);
      NatToStringInjective(r1.id, r2.id);
    }
  }

  /** A node id and an edge id never coincide. */
  lemma TableAndRelationIdsDiffer(t: Table, r: Ref)
    ensures TableId(t) != RelationId(r)
  {
    assert TableId(t)[0] == 't' && RelationId(r)[0] == 'r';
  }
}
