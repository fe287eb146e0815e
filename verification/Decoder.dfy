/**
 * The pgoutput decoder (apps/cdc-worker/src/decoder.rs): a byte parser that advances its
 * buffer in place, and a registry that decodes row changes against the relations it has
 * seen. Text is kept as bytes.
 */
module Decoder {
  import opened Wrappers

  type byte = x: int | 0 <= x < 256

  type Name = seq<byte>

  type Fields = map<Name, Option<seq<byte>>>

  datatype WalEvent =
    | Insert(table: Name, fields: Fields)
    | Update(table: Name, newFields: Fields)
    | Delete(table: Name, keyFields: Fields)
    | Skip

  datatype RelationInfo = RelationInfo(name: Name, columns: seq<Name>)

  type Relations = map<nat, RelationInfo>

  // 'R' 'I' 'U' 'D' 'N' 'O' 'K' 'n' 'u' 't'
  const TAG_RELATION: byte := 82
  const TAG_INSERT: byte := 73
  const TAG_UPDATE: byte := 85
  const TAG_DELETE: byte := 68
  const MARK_NEW: byte := 78
  const MARK_OLD: byte := 79
  const MARK_KEY: byte := 75
  const COL_NULL: byte := 110
  const COL_UNCHANGED: byte := 117
  const COL_TEXT: byte := 116

  /** "_unknown" */
  const UNKNOWN: Name := [95, 117, 110, 107, 110, 111, 119, 110]

  // ---------- what the parser computes ----------

  /** A parse step: a value or failure, and the bytes left, which a failing step does not consume. */
  datatype Parsed<T> = Parsed(value: Option<T>, rest: seq<byte>)

  function U8(b: seq<byte>): Parsed<byte> {
    if b == [] then Parsed(None, b) else Parsed(Some(b[0]), b[1..])
  }

  function BigEndian16(b0: byte, b1: byte): nat {
    b0 as int * 0x100 + b1 as int
  }

  function BigEndian32(b0: byte, b1: byte, b2: byte, b3: byte): nat {
    b0 as int * 0x100_0000 + b1 as int * 0x1_0000 + b2 as int * 0x100 + b3 as int
  }

  function U16(b: seq<byte>): Parsed<nat> {
    if |b| < 2 then Parsed(None, b) else Parsed(Some(BigEndian16(b[0], b[1])), b[2..])
  }

  function U32(b: seq<byte>): Parsed<nat> {
    if |b| < 4 then Parsed(None, b)
    else Parsed(Some(BigEndian32(b[0], b[1], b[2], b[3])), b[4..])
  }

  /** The place of the first NUL, if any. */
  function FirstZero(b: seq<byte>): (pos: Option<nat>)
    ensures pos.Some? ==> pos.value < |b| && b[pos.value] == 0 && 0 !in b[..pos.value]
    ensures pos.None? ==> 0 !in b
  {
    if b == [] then None
    else if b[0] == 0 then Some(0)
    else
      match FirstZero(b[1..])
      case None => assert b == [b[0]] + b[1..]; None
      case Some(k) => assert b[..k + 1] == [b[0]] + b[1..][..k]; Some(k + 1)
  }

  function CStr(b: seq<byte>): Parsed<Name> {
    var pos := FirstZero(b);
    if pos.None? then Parsed(None, b) else Parsed(Some(b[..pos.value]), b[pos.value + 1..])
  }

  function Take(b: seq<byte>, n: nat): Parsed<seq<byte>> {
    if |b| < n then Parsed(None, b) else Parsed(Some(b[..n]), b[n..])
  }

  function ColumnName(columns: seq<Name>, i: nat): Name {
    if i < |columns| then columns[i] else UNKNOWN
  }

  function ParseValues(b: seq<byte>, columns: seq<Name>, i: nat, n: nat, fields: Fields): Parsed<Fields>
    decreases n - i
  {
    if i >= n then Parsed(Some(fields), b)
    else
      var tag := U8(b);
      if tag.value.None? then Parsed(None, tag.rest)
      else if tag.value.value == COL_NULL then
        ParseValues(tag.rest, columns, i + 1, n, fields[ColumnName(columns, i) := None])
      else if tag.value.value == COL_TEXT then
        var len := U32(tag.rest);
        if len.value.None? then Parsed(None, len.rest)
        else
          var text := Take(len.rest, len.value.value);
          if text.value.None? then Parsed(None, text.rest)
          else ParseValues(text.rest, columns, i + 1, n, fields[ColumnName(columns, i) := Some(text.value.value)])
      else
        ParseValues(tag.rest, columns, i + 1, n, fields)
  }

  function ParseTuple(b: seq<byte>, columns: seq<Name>): Parsed<Fields> {
    var n := U16(b);
    if n.value.None? then Parsed(None, n.rest) else ParseValues(n.rest, columns, 0, n.value.value, map[])
  }

  function OrEmpty(name: Option<Name>): Name {
    if name.Some? then name.value else []
  }

  /** One column definition of a Relation message; missing pieces read as empty, as in the code. */
  function ParseColumn(b: seq<byte>): (Name, seq<byte>) {
    var name := CStr(U8(b).rest);
    (OrEmpty(name.value), U32(U32(name.rest).rest).rest)
  }

  function ParseColumns(b: seq<byte>, n: nat): seq<Name>
    decreases n
  {
    if n == 0 then []
    else var column := ParseColumn(b); [column.0] + ParseColumns(column.1, n - 1)
  }

  function Relation(relations: Relations, body: seq<byte>): Relations {
    var oid := U32(body);
    if oid.value.None? then relations
    else
      var namespace := CStr(oid.rest);
      var name := CStr(namespace.rest);
      var count := U16(U8(name.rest).rest);
      if count.value.None? then relations
      else
        relations[oid.value.value := RelationInfo(OrEmpty(name.value), ParseColumns(count.rest, count.value.value))]
  }

  function InsertEvent(relations: Relations, body: seq<byte>): WalEvent {
    var oid := U32(body);
    if oid.value.None? || oid.value.value !in relations then Skip
    else
      var rel, mark := relations[oid.value.value], U8(oid.rest);
      if mark.value != Some(MARK_NEW) then Skip
      else
        var fields := ParseTuple(mark.rest, rel.columns).value;
        if fields.None? then Skip else Insert(rel.name, fields.value)
  }

  function UpdateEvent(relations: Relations, body: seq<byte>): WalEvent {
    var oid := U32(body);
    if oid.value.None? || oid.value.value !in relations then Skip
    else
      var rel, first := relations[oid.value.value], U8(oid.rest);
      if first.value == Some(MARK_OLD) || first.value == Some(MARK_KEY) then
        var mark := U8(ParseTuple(first.rest, rel.columns).rest);
        if mark.value != Some(MARK_NEW) then Skip
        else
          var fields := ParseTuple(mark.rest, rel.columns).value;
          if fields.None? then Skip else Update(rel.name, fields.value)
      else if first.value == Some(MARK_NEW) then
        var fields := ParseTuple(first.rest, rel.columns).value;
        if fields.None? then Skip else Update(rel.name, fields.value)
      else Skip
  }

  function DeleteEvent(relations: Relations, body: seq<byte>): WalEvent {
    var oid := U32(body);
    if oid.value.None? || oid.value.value !in relations then Skip
    else
      var rel, mark := relations[oid.value.value], U8(oid.rest);
      if mark.value != Some(MARK_OLD) && mark.value != Some(MARK_KEY) then Skip
      else
        var fields := ParseTuple(mark.rest, rel.columns).value;
        if fields.None? then Skip else Delete(rel.name, fields.value)
  }

  /** `process_message`: the registry afterwards, and the event. */
  function Process(relations: Relations, data: seq<byte>): (Relations, WalEvent) {
    if data == [] then (relations, Skip)
    else
      var tag, body := data[0], data[1..];
      if tag == TAG_RELATION then (Relation(relations, body), Skip)
      else if tag == TAG_INSERT then (relations, InsertEvent(relations, body))
      else if tag == TAG_UPDATE then (relations, UpdateEvent(relations, body))
      else if tag == TAG_DELETE then (relations, DeleteEvent(relations, body))
      else (relations, Skip)
  }

  function ProcessAll(relations: Relations, messages: seq<seq<byte>>): (Relations, seq<WalEvent>) {
    if messages == [] then (relations, [])
    else
      var before := ProcessAll(relations, messages[..|messages| - 1]);
      var step := Process(before.0, messages[|messages| - 1]);
      (step.0, before.1 + [step.1])
  }

  // ---------- the parser and registry as they run ----------

  class Parser {
    var buf: seq<byte>

    constructor (b: seq<byte>)
      ensures buf == b
    {
      buf := b;
    }

    method ReadU8() returns (v: Option<byte>)
      modifies this
      ensures Parsed(v, buf) == U8(old(buf))
    {
      if buf == [] {
        return None;
      }
      v := Some(buf[0]);
      buf := buf[1..];
    }

    method ReadU16() returns (v: Option<nat>)
      modifies this
      ensures Parsed(v, buf) == U16(old(buf))
    {
      if |buf| < 2 {
        return None;
      }
      v := Some(BigEndian16(buf[0], buf[1]));
      buf := buf[2..];
    }

    method ReadU32() returns (v: Option<nat>)
      modifies this
      ensures Parsed(v, buf) == U32(old(buf))
    {
      if |buf| < 4 {
        return None;
      }
      v := Some(BigEndian32(buf[0], buf[1], buf[2], buf[3]));
      buf := buf[4..];
    }

    method ReadCStr() returns (v: Option<Name>)
      modifies this
      ensures Parsed(v, buf) == CStr(old(buf))
    {
      var pos := FirstZero(buf);
      if pos.None? {
        return None;
      }
      v := Some(buf[..pos.value]);
      buf := buf[pos.value + 1..];
    }

    method ReadBytes(n: nat) returns (v: Option<seq<byte>>)
      modifies this
      ensures Parsed(v, buf) == Take(old(buf), n)
    {
      if |buf| < n {
        return None;
      }
      v := Some(buf[..n]);
      buf := buf[n..];
    }

    /** Flags, name, type oid and type modifier of one column of a Relation message. */
    method ReadColumn() returns (name: Name)
      modifies this
      ensures var parsed := ParseColumn(old(buf)); name == parsed.0 && buf == parsed.1
    {
      var _ := ReadU8();
      var column := ReadCStr();
      var _ := ReadU32();
      var _ := ReadU32();
      name := OrEmpty(column);
    }

    method ReadColumns(n: nat) returns (columns: seq<Name>)
      modifies this
      ensures columns == ParseColumns(old(buf), n)
    {
      columns := [];
      for i := 0 to n
        invariant columns + ParseColumns(buf, n - i) == ParseColumns(old(buf), n)
      {
        var column := ReadColumn();
        assert columns + ([column] + ParseColumns(buf, n - i - 1)) == columns + [column] + ParseColumns(buf, n - i - 1);
        columns := columns + [column];
      }
    }

    method ReadTuple(columns: seq<Name>) returns (v: Option<Fields>)
      modifies this
      ensures Parsed(v, buf) == ParseTuple(old(buf), columns)
    {
      var count := ReadU16();
      if count.None? {
        return None;
      }
      var numCols := count.value;
      var fields: Fields := map[];
      for i := 0 to numCols
        invariant ParseValues(buf, columns, i, numCols, fields) == ParseTuple(old(buf), columns)
      {
        var tag := ReadU8();
        if tag.None? {
          return None;
        }
        var name := if i < |columns| then columns[i] else UNKNOWN;
        if tag.value == COL_NULL {
          fields := fields[name := None];
        } else if tag.value == COL_TEXT {
          var len := ReadU32();
          if len.None? {
            return None;
          }
          var text := ReadBytes(len.value);
          if text.None? {
            return None;
          }
          fields := fields[name := Some(text.value)];
        }
      }
      return Some(fields);
    }
  }

  class RelationRegistry {
    var relations: Relations

    constructor ()
      ensures relations == map[]
    {
      relations := map[];
    }

    method HandleRelation(body: seq<byte>)
      modifies this
      ensures relations == Relation(old(relations), body)
    {
      var p := new Parser(body);
      var oid := p.ReadU32();
      if oid.None? {
        return;
      }
      var _ := p.ReadCStr();
      var name := p.ReadCStr();
      var _ := p.ReadU8();
      var count := p.ReadU16();
      if count.None? {
        return;
      }
      var columns := p.ReadColumns(count.value);
      relations := relations[oid.value := RelationInfo(OrEmpty(name), columns)];
    }

    method HandleInsert(body: seq<byte>) returns (event: WalEvent)
      ensures event == InsertEvent(relations, body)
    {
      var p := new Parser(body);
      var oid := p.ReadU32();
      if oid.None? || oid.value !in relations {
        return Skip;
      }
      var rel := relations[oid.value];
      var mark := p.ReadU8();
      if mark != Some(MARK_NEW) {
        return Skip;
      }
      var fields := p.ReadTuple(rel.columns);
      return if fields.Some? then Insert(rel.name, fields.value) else Skip;
    }

    method HandleUpdate(body: seq<byte>) returns (event: WalEvent)
      ensures event == UpdateEvent(relations, body)
    {
      var p := new Parser(body);
      var oid := p.ReadU32();
      if oid.None? || oid.value !in relations {
        return Skip;
      }
      var rel := relations[oid.value];
      var first := p.ReadU8();
      var fields: Option<Fields> := None;
      if first == Some(MARK_OLD) || first == Some(MARK_KEY) {
        var _ := p.ReadTuple(rel.columns);
        var mark := p.ReadU8();
        if mark != Some(MARK_NEW) {
          return Skip;
        }
        fields := p.ReadTuple(rel.columns);
      } else if first == Some(MARK_NEW) {
        fields := p.ReadTuple(rel.columns);
      } else {
        return Skip;
      }
      return if fields.Some? then Update(rel.name, fields.value) else Skip;
    }

    method HandleDelete(body: seq<byte>) returns (event: WalEvent)
      ensures event == DeleteEvent(relations, body)
    {
      var p := new Parser(body);
      var oid := p.ReadU32();
      if oid.None? || oid.value !in relations {
        return Skip;
      }
      var rel := relations[oid.value];
      var mark := p.ReadU8();
      if mark != Some(MARK_OLD) && mark != Some(MARK_KEY) {
        return Skip;
      }
      var fields := p.ReadTuple(rel.columns);
      return if fields.Some? then Delete(rel.name, fields.value) else Skip;
    }

    /** Total on every byte string: no read is out of bounds. */
    method ProcessMessage(data: seq<byte>) returns (event: WalEvent)
      modifies this
      ensures (relations, event) == Process(old(relations), data)
    {
      if data == [] {
        return Skip;
      }
      var tag, body := data[0], data[1..];
      if tag == TAG_RELATION {
        HandleRelation(body);
        return Skip;
      } else if tag == TAG_INSERT {
        event := HandleInsert(body);
      } else if tag == TAG_UPDATE {
        event := HandleUpdate(body);
      } else if tag == TAG_DELETE {
        event := HandleDelete(body);
      } else {
        return Skip;
      }
    }

    method ProcessStream(messages: seq<seq<byte>>) returns (events: seq<WalEvent>)
      modifies this
      ensures (relations, events) == ProcessAll(old(relations), messages)
    {
      events := [];
      for i := 0 to |messages|
        invariant (relations, events) == ProcessAll(old(relations), messages[..i])
      {
        assert messages[..i + 1][..i] == messages[..i];
        var event := ProcessMessage(messages[i]);
        events := events + [event];
      }
      assert messages[..|messages|] == messages;
    }
  }
}
