/**
 * The encoder that matches the decoder (PostgreSQL 16, section 55.9 "Logical Replication
 * Message Formats") and the proof that the two undo each other over whole streams.
 */
module Codec {
  import opened Wrappers
  import opened Decoder

  // ---------- messages ----------

  datatype Value = Null | Unchanged | Text(bytes: seq<byte>)

  type Tuple = seq<Value>

  datatype Column = Column(flags: byte, name: Name, typeOid: nat, typeMod: nat)

  /** `key` says whether an old tuple holds only the key ('K') or the whole row ('O'). */
  datatype OldTuple = OldTuple(key: bool, values: Tuple)

  datatype Message =
    | RelationMsg(oid: nat, namespace: Name, name: Name, identity: byte, columns: seq<Column>)
    | InsertMsg(oid: nat, values: Tuple)
    | UpdateMsg(oid: nat, old_: Option<OldTuple>, values: Tuple)
    | DeleteMsg(oid: nat, row: OldTuple)

  predicate ValidValue(v: Value) {
    v.Text? ==> |v.bytes| < 0x1_0000_0000
  }

  ghost predicate ValidTuple(t: Tuple) {
    |t| < 0x1_0000 && forall i :: 0 <= i < |t| ==> ValidValue(t[i])
  }

  predicate ValidColumn(c: Column) {
    0 !in c.name && c.typeOid < 0x1_0000_0000 && c.typeMod < 0x1_0000_0000
  }

  ghost predicate Valid(m: Message) {
    && m.oid < 0x1_0000_0000
    && match m
       case RelationMsg(_, namespace, name, _, columns) =>
         && 0 !in namespace && 0 !in name && |columns| < 0x1_0000
         && forall i :: 0 <= i < |columns| ==> ValidColumn(columns[i])
       case InsertMsg(_, values) => ValidTuple(values)
       case UpdateMsg(_, old_, values) => ValidTuple(values) && (old_.Some? ==> ValidTuple(old_.value.values))
       case DeleteMsg(_, row) => ValidTuple(row.values)
  }

  // ---------- encoding ----------

  function EncodeU16(v: nat): seq<byte>
    requires v < 0x1_0000
  {
    [v / 0x100, v % 0x100]
  }

  function EncodeU32(v: nat): seq<byte>
    requires v < 0x1_0000_0000
  {
    [v / 0x100_0000, v / 0x1_0000 % 0x100, v / 0x100 % 0x100, v % 0x100]
  }

  /** The byte of an ASCII letter. The format is written down in letters, not in the decoder's constants. */
  function Letter(c: char): byte
    requires 'A' <= c <= 'z'
  {
    c as int
  }

  function EncodeValue(v: Value): seq<byte>
    requires ValidValue(v)
  {
    match v
    case Null => [Letter('n')]
    case Unchanged => [Letter('u')]
    case Text(bytes) => [Letter('t')] + EncodeU32(|bytes|) + bytes
  }

  ghost function EncodeValues(t: Tuple): seq<byte>
    requires forall i :: 0 <= i < |t| ==> ValidValue(t[i])
  {
    if t == [] then [] else EncodeValue(t[0]) + EncodeValues(t[1..])
  }

  ghost function EncodeTuple(t: Tuple): seq<byte>
    requires ValidTuple(t)
  {
    EncodeU16(|t|) + EncodeValues(t)
  }

  function EncodeColumn(c: Column): seq<byte>
    requires ValidColumn(c)
  {
    [c.flags] + (c.name + [0] + (EncodeU32(c.typeOid) + EncodeU32(c.typeMod)))
  }

  ghost function EncodeColumns(cs: seq<Column>): seq<byte>
    requires forall i :: 0 <= i < |cs| ==> ValidColumn(cs[i])
  {
    if cs == [] then [] else EncodeColumn(cs[0]) + EncodeColumns(cs[1..])
  }

  function OldMark(row: OldTuple): byte {
    if row.key then Letter('K') else Letter('O')
  }

  ghost function Encode(m: Message): seq<byte>
    requires Valid(m)
  {
    match m
    case RelationMsg(oid, namespace, name, identity, columns) =>
      [Letter('R')] + (EncodeU32(oid) + (namespace + [0] + (name + [0] +
        ([identity] + (EncodeU16(|columns|) + EncodeColumns(columns))))))
    case InsertMsg(oid, values) =>
      [Letter('I')] + (EncodeU32(oid) + ([Letter('N')] + EncodeTuple(values)))
    case UpdateMsg(oid, None, values) =>
      [Letter('U')] + (EncodeU32(oid) + ([Letter('N')] + EncodeTuple(values)))
    case UpdateMsg(oid, Some(row), values) =>
      [Letter('U')] + (EncodeU32(oid) + ([OldMark(row)] +
        (EncodeTuple(row.values) + ([Letter('N')] + EncodeTuple(values)))))
    case DeleteMsg(oid, row) =>
      [Letter('D')] + (EncodeU32(oid) + ([OldMark(row)] + EncodeTuple(row.values)))
  }

  // ---------- what a stream means, without bytes ----------

  /** The fields a tuple gives its columns; an unchanged TOAST column is not mentioned. */
  function FieldsOf(columns: seq<Name>, t: Tuple): Fields {
    if t == [] then map[]
    else
      var n := |t| - 1;
      var before := FieldsOf(columns, t[..n]);
      match t[n]
      case Null => before[ColumnName(columns, n) := None]
      case Unchanged => before
      case Text(bytes) => before[ColumnName(columns, n) := Some(bytes)]
  }

  function NamesOf(columns: seq<Column>): seq<Name> {
    seq(|columns|, i requires 0 <= i < |columns| => columns[i].name)
  }

  /** Relations replace one another per oid; row changes are read against the latest one. */
  function Meaning(relations: Relations, m: Message): (Relations, WalEvent) {
    if m.RelationMsg? then (relations[m.oid := RelationInfo(m.name, NamesOf(m.columns))], Skip)
    else if m.oid !in relations then (relations, Skip)
    else
      var rel := relations[m.oid];
      match m
      case InsertMsg(_, values) => (relations, Insert(rel.name, FieldsOf(rel.columns, values)))
      case UpdateMsg(_, _, values) => (relations, Update(rel.name, FieldsOf(rel.columns, values)))
      case DeleteMsg(_, row) => (relations, Delete(rel.name, FieldsOf(rel.columns, row.values)))
  }

  function MeaningAll(relations: Relations, ms: seq<Message>): (Relations, seq<WalEvent>) {
    if ms == [] then (relations, [])
    else
      var before := MeaningAll(relations, ms[..|ms| - 1]);
      var step := Meaning(before.0, ms[|ms| - 1]);
      (step.0, before.1 + [step.1])
  }

  /** A tuple read back from the fields it gave distinct columns. */
  function TupleFrom(columns: seq<Name>, fields: Fields): Tuple {
    seq(|columns|, i requires 0 <= i < |columns| =>
      if columns[i] !in fields then Unchanged
      else match fields[columns[i]]
        case None => Null
        case Some(bytes) => Text(bytes))
  }

  ghost predicate Distinct(columns: seq<Name>) {
    forall i, j :: 0 <= i < j < |columns| ==> columns[i] != columns[j]
  }

  lemma {:induction false} FieldsOnlyOfPrefix(columns: seq<Name>, t: Tuple, i: nat)
    requires Distinct(columns) && |t| <= i < |columns|
    ensures columns[i] !in FieldsOf(columns, t)
  {
    if t != [] {
      FieldsOnlyOfPrefix(columns, t[..|t| - 1], i);
    }
  }

  lemma {:induction false} FieldsHoldValue(columns: seq<Name>, t: Tuple, i: nat)
    requires Distinct(columns) && i < |t| <= |columns|
    ensures t[i] == (if columns[i] !in FieldsOf(columns, t) then Unchanged
                     else match FieldsOf(columns, t)[columns[i]]
                       case None => Null
                       case Some(bytes) => Text(bytes))
  {
    var n := |t| - 1;
    if i < n {
      FieldsHoldValue(columns, t[..n], i);
    } else {
      FieldsOnlyOfPrefix(columns, t[..n], n);
    }
  }

  /** With distinct column names the event loses nothing: the tuple can be read back from it. */
  lemma FieldsDetermineTuple(columns: seq<Name>, t: Tuple)
    requires Distinct(columns) && |t| == |columns|
    ensures TupleFrom(columns, FieldsOf(columns, t)) == t
  {
    forall i | 0 <= i < |t| ensures TupleFrom(columns, FieldsOf(columns, t))[i] == t[i] {
      FieldsHoldValue(columns, t, i);
    }
  }

  // ---------- decoding undoes encoding ----------

  lemma U16Decodes(v: nat, rest: seq<byte>)
    requires v < 0x1_0000
    ensures U16(EncodeU16(v) + rest) == Parsed(Some(v), rest)
  {
  }

  lemma U32Decodes(v: nat, rest: seq<byte>)
    requires v < 0x1_0000_0000
    ensures U32(EncodeU32(v) + rest) == Parsed(Some(v), rest)
  {
    assert (EncodeU32(v) + rest)[4..] == rest;
    assert v / 0x100 / 0x100 == v / 0x1_0000 && v / 0x1_0000 / 0x100 == v / 0x100_0000;
  }

  lemma CStrDecodes(name: Name, rest: seq<byte>)
    requires 0 !in name
    ensures CStr(name + [0] + rest) == Parsed(Some(name), rest)
  {
    var b := name + [0] + rest;
    assert b[|name|] == 0;
    assert FirstZero(b).Some?;
    assert FirstZero(b).value <= |name|;
    assert b[..|name|] == name && b[|name| + 1..] == rest;
  }

  lemma U8Decodes(v: byte, rest: seq<byte>)
    ensures U8([v] + rest) == Parsed(Some(v), rest)
  {
  }

  lemma TakeDecodes(bytes: seq<byte>, rest: seq<byte>)
    ensures Take(bytes + rest, |bytes|) == Parsed(Some(bytes), rest)
  {
  }

  function AddField(columns: seq<Name>, i: nat, fields: Fields, v: Value): Fields {
    match v
    case Null => fields[ColumnName(columns, i) := None]
    case Unchanged => fields
    case Text(bytes) => fields[ColumnName(columns, i) := Some(bytes)]
  }

  lemma TextDecodes(bytes: seq<byte>, rest: seq<byte>, columns: seq<Name>, i: nat, n: nat, fields: Fields)
    requires |bytes| < 0x1_0000_0000 && i < n
    ensures ParseValues([COL_TEXT] + (EncodeU32(|bytes|) + (bytes + rest)), columns, i, n, fields)
         == ParseValues(rest, columns, i + 1, n, fields[ColumnName(columns, i) := Some(bytes)])
  {
    U8Decodes(COL_TEXT, EncodeU32(|bytes|) + (bytes + rest));
    U32Decodes(|bytes|, bytes + rest);
    TakeDecodes(bytes, rest);
  }

  lemma ValueDecodes(v: Value, rest: seq<byte>, columns: seq<Name>, i: nat, n: nat, fields: Fields)
    requires ValidValue(v) && i < n
    ensures ParseValues(EncodeValue(v) + rest, columns, i, n, fields)
         == ParseValues(rest, columns, i + 1, n, AddField(columns, i, fields, v))
  {
    match v {
      case Null => U8Decodes(COL_NULL, rest);
      case Unchanged => U8Decodes(COL_UNCHANGED, rest);
      case Text(bytes) =>
        assert EncodeValue(v) + rest == [COL_TEXT] + (EncodeU32(|bytes|) + (bytes + rest));
        TextDecodes(bytes, rest, columns, i, n, fields);
    }
  }

  lemma {:induction false} ValuesDecode(t: Tuple, i: nat, rest: seq<byte>, columns: seq<Name>)
    requires i <= |t| && forall k :: 0 <= k < |t| ==> ValidValue(t[k])
    ensures ParseValues(EncodeValues(t[i..]) + rest, columns, i, |t|, FieldsOf(columns, t[..i]))
         == Parsed(Some(FieldsOf(columns, t)), rest)
    decreases |t| - i
  {
    if i == |t| {
      assert t[..i] == t;
      assert EncodeValues(t[i..]) + rest == rest;
    } else {
      var tail := EncodeValues(t[i + 1..]) + rest;
      assert t[i..][1..] == t[i + 1..] && t[i..][0] == t[i];
      assert EncodeValues(t[i..]) + rest == EncodeValue(t[i]) + tail;
      ValueDecodes(t[i], tail, columns, i, |t|, FieldsOf(columns, t[..i]));
      assert t[..i + 1][..i] == t[..i];
      ValuesDecode(t, i + 1, rest, columns);
    }
  }

  lemma TupleDecodes(t: Tuple, rest: seq<byte>, columns: seq<Name>)
    requires ValidTuple(t)
    ensures ParseTuple(EncodeTuple(t) + rest, columns) == Parsed(Some(FieldsOf(columns, t)), rest)
  {
    assert EncodeTuple(t) + rest == EncodeU16(|t|) + (EncodeValues(t) + rest);
    U16Decodes(|t|, EncodeValues(t) + rest);
    assert t[0..] == t && t[..0] == [];
    ValuesDecode(t, 0, rest, columns);
  }

  lemma ColumnDecodes(c: Column, rest: seq<byte>)
    requires ValidColumn(c)
    ensures ParseColumn(EncodeColumn(c) + rest) == (c.name, rest)
  {
    var types := EncodeU32(c.typeOid) + (EncodeU32(c.typeMod) + rest);
    assert EncodeColumn(c) + rest == [c.flags] + (c.name + [0] + types);
    U8Decodes(c.flags, c.name + [0] + types);
    CStrDecodes(c.name, types);
    U32Decodes(c.typeOid, EncodeU32(c.typeMod) + rest);
    U32Decodes(c.typeMod, rest);
  }

  lemma NamesSplit(cs: seq<Column>)
    requires cs != []
    ensures NamesOf(cs) == [cs[0].name] + NamesOf(cs[1..])
  {
  }

  lemma FirstColumn(cs: seq<Column>, b: seq<byte>) returns (rest: seq<byte>)
    requires cs != [] && (forall k :: 0 <= k < |cs| ==> ValidColumn(cs[k])) && b == EncodeColumns(cs)
    ensures rest == EncodeColumns(cs[1..]) && ParseColumn(b) == (cs[0].name, rest)
  {
    rest := EncodeColumns(cs[1..]);
    ColumnDecodes(cs[0], rest);
  }

  lemma {:induction false} ColumnsDecode(cs: seq<Column>, b: seq<byte>)
    requires (forall k :: 0 <= k < |cs| ==> ValidColumn(cs[k])) && b == EncodeColumns(cs)
    ensures ParseColumns(b, |cs|) == NamesOf(cs)
    decreases |cs|
  {
    if cs == [] {
      assert NamesOf(cs) == [];
    } else {
      var rest := FirstColumn(cs, b);
      ColumnsDecode(cs[1..], rest);
      NamesSplit(cs);
      OneColumn(b, |cs|, cs[0].name, rest);
    }
  }

  lemma OneColumn(b: seq<byte>, n: nat, name: Name, rest: seq<byte>)
    requires n > 0 && ParseColumn(b) == (name, rest)
    ensures ParseColumns(b, n) == [name] + ParseColumns(rest, n - 1)
  {
  }

  /** The shape of a Relation body, step by step. */
  lemma RelationShape(relations: Relations, body: seq<byte>, oid: nat, b1: seq<byte>, namespace: Name, b2: seq<byte>,
                      name: Name, b3: seq<byte>, b4: seq<byte>, n: nat, b5: seq<byte>)
    requires U32(body) == Parsed(Some(oid), b1) && CStr(b1) == Parsed(Some(namespace), b2)
    requires CStr(b2) == Parsed(Some(name), b3) && U8(b3).rest == b4 && U16(b4) == Parsed(Some(n), b5)
    ensures Relation(relations, body) == relations[oid := RelationInfo(name, ParseColumns(b5, n))]
  {
  }

  lemma RelationDecodes(relations: Relations, m: Message)
    requires m.RelationMsg? && Valid(m)
    ensures Process(relations, Encode(m)) == Meaning(relations, m)
  {
    var cols := EncodeColumns(m.columns);
    var fromCount := EncodeU16(|m.columns|) + cols;
    var fromIdentity := [m.identity] + fromCount;
    var fromName := m.name + [0] + fromIdentity;
    var fromNamespace := m.namespace + [0] + fromName;
    var body := EncodeU32(m.oid) + fromNamespace;
    assert Encode(m) == [TAG_RELATION] + body by {
      assert m.namespace + [0] + (m.name + [0] + ([m.identity] + (EncodeU16(|m.columns|) + cols))) == fromNamespace;
    }
    U32Decodes(m.oid, fromNamespace);
    CStrDecodes(m.namespace, fromName);
    CStrDecodes(m.name, fromIdentity);
    U8Decodes(m.identity, fromCount);
    U16Decodes(|m.columns|, cols);
    RelationShape(relations, body, m.oid, fromNamespace, m.namespace, fromName, m.name, fromIdentity, fromCount,
                  |m.columns|, cols);
    ColumnsDecode(m.columns, cols);
    TagFirst(relations, TAG_RELATION, body);
  }

  lemma TagFirst(relations: Relations, tag: byte, body: seq<byte>)
    ensures var data := [tag] + body;
      && (tag == TAG_RELATION ==> Process(relations, data) == (Relation(relations, body), Skip))
      && (tag == TAG_INSERT ==> Process(relations, data) == (relations, InsertEvent(relations, body)))
      && (tag == TAG_UPDATE ==> Process(relations, data) == (relations, UpdateEvent(relations, body)))
      && (tag == TAG_DELETE ==> Process(relations, data) == (relations, DeleteEvent(relations, body)))
  {
  }

  /** Where each handler finds the one tuple it reads. */
  lemma OneTupleShape(relations: Relations, body: seq<byte>, oid: nat, mark: byte, tuple: seq<byte>)
    requires U32(body) == Parsed(Some(oid), [mark] + tuple)
    ensures oid !in relations ==>
      InsertEvent(relations, body) == UpdateEvent(relations, body) == DeleteEvent(relations, body) == Skip
    ensures oid in relations ==>
      var rel := relations[oid];
      var fields := ParseTuple(tuple, rel.columns).value;
      && (mark == MARK_NEW ==>
            InsertEvent(relations, body) == (if fields.None? then Skip else Insert(rel.name, fields.value)))
      && (mark == MARK_NEW ==>
            UpdateEvent(relations, body) == (if fields.None? then Skip else Update(rel.name, fields.value)))
      && (mark != MARK_NEW && mark in [MARK_OLD, MARK_KEY] ==>
            DeleteEvent(relations, body) == (if fields.None? then Skip else Delete(rel.name, fields.value)))
  {
  }

  /** Where an update with an old tuple finds the new one. */
  lemma TwoTuplesShape(relations: Relations, body: seq<byte>, oid: nat, mark: byte, both: seq<byte>, tuple: seq<byte>)
    requires U32(body) == Parsed(Some(oid), [mark] + both) && mark in [MARK_OLD, MARK_KEY]
    requires oid in relations && ParseTuple(both, relations[oid].columns).rest == [MARK_NEW] + tuple
    ensures var fields := ParseTuple(tuple, relations[oid].columns).value;
      UpdateEvent(relations, body) == if fields.None? then Skip else Update(relations[oid].name, fields.value)
  {
  }

  /** The marker that goes with a message of one tuple. */
  predicate Fits(tag: byte, mark: byte) {
    (tag in [TAG_INSERT, TAG_UPDATE] && mark == MARK_NEW) || (tag == TAG_DELETE && mark in [MARK_OLD, MARK_KEY])
  }

  lemma OneTupleDecodes(relations: Relations, tag: byte, oid: nat, mark: byte, t: Tuple)
    requires oid < 0x1_0000_0000 && ValidTuple(t)
    requires Fits(tag, mark)
    ensures Process(relations, [tag] + (EncodeU32(oid) + ([mark] + EncodeTuple(t)))) ==
      (relations,
       if oid !in relations then Skip
       else var name, fields := relations[oid].name, FieldsOf(relations[oid].columns, t);
         if tag == TAG_INSERT then Insert(name, fields)
         else if tag == TAG_UPDATE then Update(name, fields) else Delete(name, fields))
  {
    var tuple := EncodeTuple(t);
    var body := EncodeU32(oid) + ([mark] + tuple);
    TagFirst(relations, tag, body);
    U32Decodes(oid, [mark] + tuple);
    OneTupleShape(relations, body, oid, mark, tuple);
    if oid in relations {
      TupleDecodes(t, [], relations[oid].columns);
      assert tuple + [] == tuple;
    }
  }

  lemma TwoTuplesDecode(relations: Relations, oid: nat, row: OldTuple, t: Tuple)
    requires oid < 0x1_0000_0000 && ValidTuple(t) && ValidTuple(row.values)
    ensures Process(relations,
              [TAG_UPDATE] + (EncodeU32(oid) + ([OldMark(row)] +
                (EncodeTuple(row.values) + ([MARK_NEW] + EncodeTuple(t)))))) ==
      (relations, if oid !in relations then Skip else Update(relations[oid].name, FieldsOf(relations[oid].columns, t)))
  {
    var tuple := EncodeTuple(t);
    var both := EncodeTuple(row.values) + ([MARK_NEW] + tuple);
    var body := EncodeU32(oid) + ([OldMark(row)] + both);
    TagFirst(relations, TAG_UPDATE, body);
    U32Decodes(oid, [OldMark(row)] + both);
    if oid in relations {
      TupleDecodes(row.values, [MARK_NEW] + tuple, relations[oid].columns);
      TwoTuplesShape(relations, body, oid, OldMark(row), both, tuple);
      TupleDecodes(t, [], relations[oid].columns);
      assert tuple + [] == tuple;
    } else {
      OneTupleShape(relations, body, oid, OldMark(row), both);
    }
  }

  lemma RowChangeDecodes(relations: Relations, m: Message)
    requires !m.RelationMsg? && Valid(m)
    ensures Process(relations, Encode(m)) == Meaning(relations, m)
  {
    match m {
      case InsertMsg(oid, values) => OneTupleDecodes(relations, TAG_INSERT, oid, MARK_NEW, values);
      case UpdateMsg(oid, None, values) => OneTupleDecodes(relations, TAG_UPDATE, oid, MARK_NEW, values);
      case UpdateMsg(oid, Some(row), values) => TwoTuplesDecode(relations, oid, row, values);
      case DeleteMsg(oid, row) => OneTupleDecodes(relations, TAG_DELETE, oid, OldMark(row), row.values);
    }
  }

  ghost function EncodeAll(ms: seq<Message>): seq<seq<byte>>
    requires forall k :: 0 <= k < |ms| ==> Valid(ms[k])
  {
    seq(|ms|, i requires 0 <= i < |ms| => Encode(ms[i]))
  }

  /** Decoding the encodings of any stream of messages, from any registry, gives what the stream means. */
  lemma {:induction false} StreamRoundTrip(relations: Relations, ms: seq<Message>)
    requires forall k :: 0 <= k < |ms| ==> Valid(ms[k])
    ensures ProcessAll(relations, EncodeAll(ms)) == MeaningAll(relations, ms)
  {
    if ms != [] {
      var n := |ms| - 1;
      StreamRoundTrip(relations, ms[..n]);
      assert EncodeAll(ms)[..n] == EncodeAll(ms[..n]);
      var now := MeaningAll(relations, ms[..n]).0;
      if ms[n].RelationMsg? {
        RelationDecodes(now, ms[n]);
      } else {
        RowChangeDecodes(now, ms[n]);
      }
    }
  }
}
