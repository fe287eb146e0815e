/**
 * The decoder on bytes written out in full, for every kind of message, marker and column
 * (PostgreSQL 16, section 55.9 "Logical Replication Message Formats").
 */
module Wire {
  import opened Wrappers
  import opened Decoder
  import opened Codec

  /** Relation 1 is "t" with the column "a"; relation 2 is "t" with no column at all. */
  const Known: Relations := map[1 := RelationInfo([116], [[97]]), 2 := RelationInfo([116], [])]

  lemma OneValue(v: Value)
    requires ValidValue(v)
    ensures ValidTuple([v]) && EncodeTuple([v]) == [0, 1] + EncodeValue(v)
    ensures forall columns: seq<Name> :: FieldsOf(columns, [v]) == AddField(columns, 0, map[], v)
  {
    assert [v][1..] == [] && [v][..0] == [];
    assert EncodeValues([v]) == EncodeValue(v) + EncodeValues([]);
  }

  /** A column sent as null, as unchanged and as the text "x"; and a value beyond the last column. */
  lemma InsertBytes()
    ensures Process(Known, [73, 0, 0, 0, 1, 78, 0, 1, 110]) == (Known, Insert([116], map[[97] := None]))
    ensures Process(Known, [73, 0, 0, 0, 1, 78, 0, 1, 117]) == (Known, Insert([116], map[]))
    ensures Process(Known, [73, 0, 0, 0, 2, 78, 0, 1, 110]) ==
      (Known, Insert([116], map[[95, 117, 110, 107, 110, 111, 119, 110] := None]))
  {
    OneValue(Null);
    OneValue(Unchanged);
    var empty, kept, extra := InsertMsg(1, [Null]), InsertMsg(1, [Unchanged]), InsertMsg(2, [Null]);
    assert Encode(empty) == [73, 0, 0, 0, 1, 78, 0, 1, 110];
    assert Encode(kept) == [73, 0, 0, 0, 1, 78, 0, 1, 117];
    assert Encode(extra) == [73, 0, 0, 0, 2, 78, 0, 1, 110];
    RowChangeDecodes(Known, empty);
    RowChangeDecodes(Known, kept);
    RowChangeDecodes(Known, extra);
  }

  lemma TextBytes()
    ensures Process(Known, [73, 0, 0, 0, 1, 78, 0, 1, 116, 0, 0, 0, 1, 120]) ==
      (Known, Insert([116], map[[97] := Some([120])]))
  {
    OneValue(Text([120]));
    var m := InsertMsg(1, [Text([120])]);
    assert EncodeValue(Text([120])) == [116, 0, 0, 0, 1, 120];
    assert Encode(m) == [73, 0, 0, 0, 1, 78, 0, 1, 116, 0, 0, 0, 1, 120];
    RowChangeDecodes(Known, m);
  }

  lemma UpdateBytes()
    ensures Process(Known, [85, 0, 0, 0, 1, 78, 0, 1, 110]) == (Known, Update([116], map[[97] := None]))
  {
    OneValue(Null);
    var m := UpdateMsg(1, None, [Null]);
    assert Encode(m) == [85, 0, 0, 0, 1, 78, 0, 1, 110];
    RowChangeDecodes(Known, m);
  }

  /** Updates with a whole old row and with a key: the old row leaves no trace. */
  lemma OldRowBytes()
    ensures Process(Known, [85, 0, 0, 0, 1, 79, 0, 1, 110, 78, 0, 1, 117]) == (Known, Update([116], map[]))
    ensures Process(Known, [85, 0, 0, 0, 1, 75, 0, 1, 117, 78, 0, 1, 110]) == (Known, Update([116], map[[97] := None]))
  {
    OneValue(Null);
    OneValue(Unchanged);
    var whole := UpdateMsg(1, Some(OldTuple(false, [Null])), [Unchanged]);
    var key := UpdateMsg(1, Some(OldTuple(true, [Unchanged])), [Null]);
    assert Encode(whole) == [85, 0, 0, 0, 1, 79, 0, 1, 110, 78, 0, 1, 117];
    assert Encode(key) == [85, 0, 0, 0, 1, 75, 0, 1, 117, 78, 0, 1, 110];
    RowChangeDecodes(Known, whole);
    RowChangeDecodes(Known, key);
  }

  lemma DeleteBytes()
    ensures Process(Known, [68, 0, 0, 0, 1, 79, 0, 1, 110]) == (Known, Delete([116], map[[97] := None]))
    ensures Process(Known, [68, 0, 0, 0, 1, 75, 0, 1, 110]) == (Known, Delete([116], map[[97] := None]))
  {
    OneValue(Null);
    var whole := DeleteMsg(1, OldTuple(false, [Null]));
    var key := DeleteMsg(1, OldTuple(true, [Null]));
    assert Encode(whole) == [68, 0, 0, 0, 1, 79, 0, 1, 110];
    assert Encode(key) == [68, 0, 0, 0, 1, 75, 0, 1, 110];
    RowChangeDecodes(Known, whole);
    RowChangeDecodes(Known, key);
  }

  /** Relation 258 (bytes 0 0 1 2) in namespace "p", named "t", without columns. */
  lemma RelationBytes(relations: Relations)
    ensures Process(relations, [82, 0, 0, 1, 2, 112, 0, 116, 0, 100, 0, 0]) ==
      (relations[258 := RelationInfo([116], [])], Skip)
  {
    var m := RelationMsg(258, [112], [116], 100, []);
    assert EncodeU32(258) == [0, 0, 1, 2];
    assert Encode(m) == [82, 0, 0, 1, 2, 112, 0, 116, 0, 100, 0, 0];
    assert NamesOf([]) == [];
    RelationDecodes(relations, m);
  }
}
