/**
 * What the decoder makes of a message that is cut short: when it is skipped, and when part
 * of an old row is taken for a new one.
 */
module Truncation {
  import opened Wrappers
  import opened Decoder
  import opened Codec

  // ---------- a tuple cut short ----------

  /** The bytes a failing parse of a cut value leaves behind: part of its length, or part of its text. */
  function LeftOfValue(v: Value, k: nat): seq<byte>
    requires ValidValue(v) && k < |EncodeValue(v)|
  {
    if !v.Text? || k == 0 then []
    else if k < 5 then EncodeU32(|v.bytes|)[..k - 1]
    else v.bytes[..k - 5]
  }

  ghost function LeftOfValues(t: Tuple, k: nat): seq<byte>
    requires (forall j :: 0 <= j < |t| ==> ValidValue(t[j])) && k < |EncodeValues(t)|
  {
    var first := EncodeValue(t[0]);
    if k < |first| then LeftOfValue(t[0], k) else LeftOfValues(t[1..], k - |first|)
  }

  ghost function LeftOfTuple(t: Tuple, k: nat): seq<byte>
    requires ValidTuple(t) && k < |EncodeTuple(t)|
  {
    if k < 2 then EncodeU16(|t|)[..k] else LeftOfValues(t, k - 2)
  }

  lemma ShortTextFails(bytes: seq<byte>, left: seq<byte>, columns: seq<Name>, i: nat, n: nat, fields: Fields)
    requires |left| < |bytes| < 0x1_0000_0000 && i < n
    ensures ParseValues([COL_TEXT] + (EncodeU32(|bytes|) + left), columns, i, n, fields) == Parsed(None, left)
  {
    U8Decodes(COL_TEXT, EncodeU32(|bytes|) + left);
    U32Decodes(|bytes|, left);
  }

  lemma ShortLengthFails(left: seq<byte>, columns: seq<Name>, i: nat, n: nat, fields: Fields)
    requires |left| < 4 && i < n
    ensures ParseValues([COL_TEXT] + left, columns, i, n, fields) == Parsed(None, left)
  {
    U8Decodes(COL_TEXT, left);
  }

  /** What a text cut after `k` bytes still has: its tag, its length or part of it, part of its bytes. */
  lemma CutText(bytes: seq<byte>, k: nat)
    requires |bytes| < 0x1_0000_0000 && 1 <= k < 5 + |bytes|
    ensures EncodeValue(Text(bytes))[..k] ==
      [COL_TEXT] + if k < 5 then EncodeU32(|bytes|)[..k - 1] else EncodeU32(|bytes|) + bytes[..k - 5]
  {
    var len := EncodeU32(|bytes|);
    assert EncodeValue(Text(bytes)) == [COL_TEXT] + (len + bytes);
    SliceRight([COL_TEXT], len + bytes, k);
    if k < 5 {
      SliceLeft(len, bytes, k - 1);
    } else {
      SliceRight(len, bytes, k - 1);
    }
  }

  lemma ShortValueFails(v: Value, k: nat, columns: seq<Name>, i: nat, n: nat, fields: Fields)
    requires ValidValue(v) && k < |EncodeValue(v)| && i < n
    ensures ParseValues(EncodeValue(v)[..k], columns, i, n, fields) == Parsed(None, LeftOfValue(v, k))
  {
    if k > 0 {
      CutText(v.bytes, k);
      if k < 5 {
        ShortLengthFails(EncodeU32(|v.bytes|)[..k - 1], columns, i, n, fields);
      } else {
        ShortTextFails(v.bytes, v.bytes[..k - 5], columns, i, n, fields);
      }
    }
  }

  lemma {:induction false} ShortValuesFail(t: Tuple, k: nat, columns: seq<Name>, i: nat, n: nat, fields: Fields)
    requires (forall j :: 0 <= j < |t| ==> ValidValue(t[j])) && i + |t| == n && k < |EncodeValues(t)|
    ensures ParseValues(EncodeValues(t)[..k], columns, i, n, fields) == Parsed(None, LeftOfValues(t, k))
    decreases |t|
  {
    var first, others := EncodeValue(t[0]), EncodeValues(t[1..]);
    var after := AddField(columns, i, fields, t[0]);
    assert EncodeValues(t) == first + others;
    if k < |first| {
      SliceLeft(first, others, k);
      ShortValueFails(t[0], k, columns, i, n, fields);
    } else {
      SliceRight(first, others, k);
      ValueDecodes(t[0], others[..k - |first|], columns, i, n, fields);
      ShortValuesFail(t[1..], k - |first|, columns, i + 1, n, after);
    }
  }

  lemma SliceLeft(a: seq<byte>, b: seq<byte>, k: nat)
    requires k <= |a|
    ensures (a + b)[..k] == a[..k]
  {
  }

  lemma SliceRight(a: seq<byte>, b: seq<byte>, k: nat)
    requires |a| <= k <= |a| + |b|
    ensures (a + b)[..k] == a + b[..k - |a|]
  {
  }

  /** A cut tuple never parses, and leaves exactly the bytes it could not use. */
  lemma ShortTupleFails(t: Tuple, k: nat, columns: seq<Name>)
    requires ValidTuple(t) && k < |EncodeTuple(t)|
    ensures ParseTuple(EncodeTuple(t)[..k], columns) == Parsed(None, LeftOfTuple(t, k))
  {
    if k >= 2 {
      var rest := EncodeValues(t)[..k - 2];
      assert EncodeTuple(t)[..k] == EncodeU16(|t|) + rest;
      U16Decodes(|t|, rest);
      ShortValuesFail(t, k - 2, columns, 0, |t|, map[]);
    } else {
      assert EncodeTuple(t)[..k] == EncodeU16(|t|)[..k];
    }
  }

  // ---------- messages of one tuple ----------

  /** A single tuple behind a tag, an oid and a marker. */
  ghost predicate OneTuple(m: Message) {
    m.InsertMsg? || m.DeleteMsg? || (m.UpdateMsg? && m.old_.None?)
  }

  lemma CutIsSkipped(relations: Relations, tag: byte, oid: nat, mark: byte, t: Tuple, k: nat)
    requires oid < 0x1_0000_0000 && ValidTuple(t)
    requires Fits(tag, mark)
    requires k < |[tag] + (EncodeU32(oid) + ([mark] + EncodeTuple(t)))|
    ensures Process(relations, ([tag] + (EncodeU32(oid) + ([mark] + EncodeTuple(t))))[..k]) == (relations, Skip)
  {
    var tuple, oidBytes := EncodeTuple(t), EncodeU32(oid);
    if k > 0 {
      var tail := [mark] + tuple;
      SliceRight([tag], oidBytes + tail, k);
      var body := (oidBytes + tail)[..k - 1];
      TagFirst(relations, tag, body);
      if k >= 6 {
        SliceRight(oidBytes, tail, k - 1);
        SliceRight([mark], tuple, k - 5);
        U32Decodes(oid, [mark] + tuple[..k - 6]);
        OneTupleShape(relations, body, oid, mark, tuple[..k - 6]);
        if oid in relations {
          ShortTupleFails(t, k - 6, relations[oid].columns);
        }
      } else {
        CutBeforeTuple(relations, body, oid, k);
      }
    }
  }

  lemma CutBeforeTuple(relations: Relations, body: seq<byte>, oid: nat, k: nat)
    requires 1 <= k <= 5 && |body| == k - 1
    ensures InsertEvent(relations, body) == UpdateEvent(relations, body) == DeleteEvent(relations, body) == Skip
  {
  }

  /** A message of one tuple that is cut short anywhere is skipped, never half-read. */
  lemma TruncatedIsSkipped(relations: Relations, m: Message, k: nat)
    requires Valid(m) && OneTuple(m) && k < |Encode(m)|
    ensures Process(relations, Encode(m)[..k]) == (relations, Skip)
  {
    match m {
      case InsertMsg(oid, values) => CutIsSkipped(relations, TAG_INSERT, oid, MARK_NEW, values, k);
      case UpdateMsg(oid, _, values) => CutIsSkipped(relations, TAG_UPDATE, oid, MARK_NEW, values, k);
      case DeleteMsg(oid, row) => CutIsSkipped(relations, TAG_DELETE, oid, OldMark(row), row.values, k);
    }
  }

  // ---------- updates with an old row ----------

  /** These bytes start with the mark of a new row and a complete tuple. */
  predicate ReadsAsNewRow(b: seq<byte>) {
    b != [] && b[0] == MARK_NEW && ParseTuple(b[1..], []).value.Some?
  }

  /** Whether values parse, and what they leave, does not depend on the columns. */
  lemma {:induction false} ColumnsDoNotMatter(b: seq<byte>, columns: seq<Name>, i: nat, n: nat, f: Fields, g: Fields)
    ensures ParseValues(b, columns, i, n, f).value.Some? <==> ParseValues(b, [], i, n, g).value.Some?
    decreases n - i
  {
    if i < n && b != [] {
      var rest := U8(b).rest;
      if b[0] == COL_NULL {
        ColumnsDoNotMatter(rest, columns, i + 1, n, f[ColumnName(columns, i) := None], g[UNKNOWN := None]);
      } else if b[0] == COL_TEXT {
        if U32(rest).value.Some? {
          var text := Take(U32(rest).rest, U32(rest).value.value);
          if text.value.Some? {
            ColumnsDoNotMatter(text.rest, columns, i + 1, n,
              f[ColumnName(columns, i) := Some(text.value.value)], g[UNKNOWN := Some(text.value.value)]);
          }
        }
      } else {
        ColumnsDoNotMatter(rest, columns, i + 1, n, f, g);
      }
    }
  }

  /** What an update does with the bytes `left` after its old row. */
  function EventAfterOldRow(rel: RelationInfo, left: seq<byte>): WalEvent {
    if !ReadsAsNewRow(left) then Skip
    else
      var fields := ParseTuple(left[1..], rel.columns).value;
      if fields.Some? then Update(rel.name, fields.value) else Skip
  }

  lemma OldRowShape(relations: Relations, body: seq<byte>, oid: nat, mark: byte, cut: seq<byte>)
    requires U32(body) == Parsed(Some(oid), [mark] + cut) && mark in [MARK_OLD, MARK_KEY] && oid in relations
    ensures UpdateEvent(relations, body) ==
      EventAfterOldRow(relations[oid], ParseTuple(cut, relations[oid].columns).rest)
  {
    U8Decodes(mark, cut);
    var left := ParseTuple(cut, relations[oid].columns).rest;
    if left != [] && U16(left[1..]).value.Some? {
      ColumnsDoNotMatter(U16(left[1..]).rest, relations[oid].columns, 0, U16(left[1..]).value.value, map[], map[]);
    }
  }

  /** The bytes of an update cut `k` bytes into its old row, and what is left of them unread. */
  lemma OldRowCutDecodes(relations: Relations, oid: nat, row: OldTuple, k: nat)
    requires oid < 0x1_0000_0000 && oid in relations && ValidTuple(row.values) && k < |EncodeTuple(row.values)|
    ensures Process(relations, [TAG_UPDATE] + (EncodeU32(oid) + ([OldMark(row)] + EncodeTuple(row.values)[..k]))) ==
      (relations, EventAfterOldRow(relations[oid], LeftOfTuple(row.values, k)))
  {
    var cut := EncodeTuple(row.values)[..k];
    var body := EncodeU32(oid) + ([OldMark(row)] + cut);
    TagFirst(relations, TAG_UPDATE, body);
    U32Decodes(oid, [OldMark(row)] + cut);
    OldRowShape(relations, body, oid, OldMark(row), cut);
    ShortTupleFails(row.values, k, relations[oid].columns);
  }

  /** An update cut at the end of its old row or inside its new one. */
  lemma NewRowCutIsSkipped(relations: Relations, oid: nat, row: OldTuple, t: Tuple, k: nat)
    requires oid < 0x1_0000_0000 && oid in relations && ValidTuple(row.values) && ValidTuple(t)
    requires k < |[MARK_NEW] + EncodeTuple(t)|
    ensures Process(relations, [TAG_UPDATE] + (EncodeU32(oid) + ([OldMark(row)] +
              (EncodeTuple(row.values) + ([MARK_NEW] + EncodeTuple(t))[..k])))) == (relations, Skip)
  {
    var tail := ([MARK_NEW] + EncodeTuple(t))[..k];
    var both := EncodeTuple(row.values) + tail;
    var body := EncodeU32(oid) + ([OldMark(row)] + both);
    TagFirst(relations, TAG_UPDATE, body);
    U32Decodes(oid, [OldMark(row)] + both);
    OldRowShape(relations, body, oid, OldMark(row), both);
    TupleDecodes(row.values, tail, relations[oid].columns);
    if k > 0 {
      SliceRight([MARK_NEW], EncodeTuple(t), k);
      assert tail[1..] == EncodeTuple(t)[..k - 1];
      ShortTupleFails(t, k - 1, relations[oid].columns);
    }
  }

  lemma UnknownOidIsSkipped(relations: Relations, oid: nat, rest: seq<byte>)
    requires oid < 0x1_0000_0000 && oid !in relations
    ensures Process(relations, [TAG_UPDATE] + (EncodeU32(oid) + rest)) == (relations, Skip)
  {
    TagFirst(relations, TAG_UPDATE, EncodeU32(oid) + rest);
    U32Decodes(oid, rest);
  }

  lemma CutBeforeRow(relations: Relations, body: seq<byte>)
    requires |body| <= 4
    ensures Process(relations, [TAG_UPDATE] + body) == (relations, Skip)
  {
    TagFirst(relations, TAG_UPDATE, body);
    CutBeforeTuple(relations, body, 0, |body| + 1);
  }

  ghost predicate HasOldRow(m: Message) {
    m.UpdateMsg? && m.old_.Some?
  }

  /** The bytes of an update up to a cut `k` bytes into what follows the marker of its old row. */
  lemma PrefixOfUpdate(m: Message, k: nat)
    requires Valid(m) && HasOldRow(m) && 6 <= k <= |Encode(m)|
    ensures var row := m.old_.value;
      var rows := EncodeTuple(row.values) + ([MARK_NEW] + EncodeTuple(m.values));
      && |Encode(m)| == 6 + |rows|
      && Encode(m)[..k] == [TAG_UPDATE] + (EncodeU32(m.oid) + ([OldMark(row)] + rows[..k - 6]))
  {
    var row := m.old_.value;
    var rows := EncodeTuple(row.values) + ([MARK_NEW] + EncodeTuple(m.values));
    var oidBytes, marked := EncodeU32(m.oid), [OldMark(row)] + rows;
    assert Encode(m) == [TAG_UPDATE] + (oidBytes + marked);
    SliceRight([TAG_UPDATE], oidBytes + marked, k);
    SliceRight(oidBytes, marked, k - 1);
    SliceRight([OldMark(row)], rows, k - 5);
  }

  lemma CutBeforeOldRow(relations: Relations, m: Message, k: nat)
    requires Valid(m) && HasOldRow(m) && k < |Encode(m)| && k < 6
    ensures Process(relations, Encode(m)[..k]) == (relations, Skip)
  {
    if k > 0 {
      var rest := Encode(m)[1..];
      assert Encode(m) == [TAG_UPDATE] + rest;
      SliceRight([TAG_UPDATE], rest, k);
      CutBeforeRow(relations, rest[..k - 1]);
    }
  }

  lemma RowsCut(relations: Relations, oid: nat, row: OldTuple, t: Tuple, j: nat)
    requires oid < 0x1_0000_0000 && ValidTuple(row.values) && ValidTuple(t)
    requires j < |EncodeTuple(row.values) + ([MARK_NEW] + EncodeTuple(t))|
    ensures var rows := EncodeTuple(row.values) + ([MARK_NEW] + EncodeTuple(t));
      Process(relations, [TAG_UPDATE] + (EncodeU32(oid) + ([OldMark(row)] + rows[..j]))) ==
      (relations,
       if oid in relations && j < |EncodeTuple(row.values)|
       then EventAfterOldRow(relations[oid], LeftOfTuple(row.values, j)) else Skip)
  {
    var old_, new_ := EncodeTuple(row.values), [MARK_NEW] + EncodeTuple(t);
    if oid !in relations {
      UnknownOidIsSkipped(relations, oid, [OldMark(row)] + (old_ + new_)[..j]);
    } else if j < |old_| {
      SliceLeft(old_, new_, j);
      OldRowCutDecodes(relations, oid, row, j);
    } else {
      SliceRight(old_, new_, j);
      NewRowCutIsSkipped(relations, oid, row, t, j - |old_|);
    }
  }

  /** Every strict prefix: skipped, or what the bytes left of the old row read as. */
  lemma OldRowCutIff(relations: Relations, m: Message, k: nat)
    requires Valid(m) && HasOldRow(m) && k < |Encode(m)|
    ensures var old_ := m.old_.value.values;
      Process(relations, Encode(m)[..k]) ==
      (relations,
       if m.oid in relations && 6 <= k < 6 + |EncodeTuple(old_)|
       then EventAfterOldRow(relations[m.oid], LeftOfTuple(old_, k - 6)) else Skip)
  {
    if k < 6 {
      CutBeforeOldRow(relations, m, k);
    } else {
      PrefixOfUpdate(m, k);
      RowsCut(relations, m.oid, m.old_.value, m.values, k - 6);
    }
  }

  // ---------- when no cut is misread ----------

  /** No cut inside this value leaves bytes that read as a new row. */
  ghost predicate CutsHarmlessly(v: Value)
    requires ValidValue(v)
  {
    v.Text? ==>
      && !ReadsAsNewRow(EncodeU32(|v.bytes|)[..3])
      && forall j :: 0 <= j < |v.bytes| ==> !ReadsAsNewRow(v.bytes[..j])
  }

  lemma TooShortForARow(b: seq<byte>)
    requires |b| < 3
    ensures !ReadsAsNewRow(b)
  {
  }

  lemma {:induction false} HarmlessValuesLeaveNoRow(t: Tuple, k: nat)
    requires (forall j :: 0 <= j < |t| ==> ValidValue(t[j]) && CutsHarmlessly(t[j])) && k < |EncodeValues(t)|
    ensures !ReadsAsNewRow(LeftOfValues(t, k))
    decreases |t|
  {
    var first := EncodeValue(t[0]);
    if k >= |first| {
      HarmlessValuesLeaveNoRow(t[1..], k - |first|);
    } else if !t[0].Text? || k < 4 {
      TooShortForARow(LeftOfValue(t[0], k));
    }
  }

  /** Every cut inside a value is a cut of its row. */
  lemma {:induction false} ValueCutIsRowCut(t: Tuple, i: nat, j: nat) returns (k: nat)
    requires (forall x :: 0 <= x < |t| ==> ValidValue(t[x])) && i < |t| && j < |EncodeValue(t[i])|
    ensures k < |EncodeValues(t)| && LeftOfValues(t, k) == LeftOfValue(t[i], j)
    decreases i
  {
    assert EncodeValues(t) == EncodeValue(t[0]) + EncodeValues(t[1..]);
    if i == 0 {
      k := j;
    } else {
      k := ValueCutIsRowCut(t[1..], i - 1, j);
      k := |EncodeValue(t[0])| + k;
    }
  }

  /** A cut inside value `i` of the old row, as a cut of the message. */
  lemma ValueCutDecodes(relations: Relations, m: Message, i: nat, j: nat) returns (k: nat)
    requires Valid(m) && HasOldRow(m) && m.oid in relations
    requires i < |m.old_.value.values| && j < |EncodeValue(m.old_.value.values[i])|
    ensures k < |Encode(m)|
    ensures Process(relations, Encode(m)[..k]) ==
      (relations, EventAfterOldRow(relations[m.oid], LeftOfValue(m.old_.value.values[i], j)))
  {
    k := ValueCutIsRowCut(m.old_.value.values, i, j);
    k := k + 8;
    OldRowCutIff(relations, m, k);
  }

  lemma NewRowIsNotSkipped(rel: RelationInfo, left: seq<byte>)
    requires ReadsAsNewRow(left)
    ensures EventAfterOldRow(rel, left) != Skip
  {
    var n := U16(left[1..]);
    ColumnsDoNotMatter(n.rest, rel.columns, 0, n.value.value, map[], map[]);
  }

  ghost predicate AllCutsSkipped(relations: Relations, m: Message)
    requires Valid(m)
  {
    forall k :: 0 <= k < |Encode(m)| ==> Process(relations, Encode(m)[..k]) == (relations, Skip)
  }

  lemma HarmlessRowsAreSkipped(relations: Relations, m: Message)
    requires Valid(m) && HasOldRow(m)
    requires m.oid !in relations || forall v :: v in m.old_.value.values ==> ValidValue(v) && CutsHarmlessly(v)
    ensures AllCutsSkipped(relations, m)
  {
    var old_ := m.old_.value.values;
    forall k | 0 <= k < |Encode(m)| ensures Process(relations, Encode(m)[..k]) == (relations, Skip) {
      OldRowCutIff(relations, m, k);
      if m.oid in relations && 6 <= k < 6 + |EncodeTuple(old_)| {
        if k < 8 {
          TooShortForARow(LeftOfTuple(old_, k - 6));
        } else {
          HarmlessValuesLeaveNoRow(old_, k - 8);
        }
      }
    }
  }

  lemma SkippedRowIsHarmless(relations: Relations, m: Message, i: nat)
    requires Valid(m) && HasOldRow(m) && m.oid in relations && AllCutsSkipped(relations, m)
    requires i < |m.old_.value.values|
    ensures CutsHarmlessly(m.old_.value.values[i])
  {
    var v, rel := m.old_.value.values[i], relations[m.oid];
    if v.Text? {
      var k := ValueCutDecodes(relations, m, i, 4);
      if ReadsAsNewRow(EncodeU32(|v.bytes|)[..3]) {
        NewRowIsNotSkipped(rel, EncodeU32(|v.bytes|)[..3]);
      }
      forall j | 0 <= j < |v.bytes| ensures !ReadsAsNewRow(v.bytes[..j]) {
        var k' := ValueCutDecodes(relations, m, i, j + 5);
        if ReadsAsNewRow(v.bytes[..j]) {
          NewRowIsNotSkipped(rel, v.bytes[..j]);
        }
      }
    }
  }

  /**
   * The exact condition for an update with an old row: every strict prefix is skipped if and
   * only if its relation is unknown, or for every text of the old row neither a strict prefix
   * of it nor the first three bytes of its length read as a new row.
   */
  lemma OldRowTruncationIff(relations: Relations, m: Message)
    requires Valid(m) && HasOldRow(m)
    ensures AllCutsSkipped(relations, m) <==>
      (m.oid !in relations || forall v :: v in m.old_.value.values ==> ValidValue(v) && CutsHarmlessly(v))
  {
    var old_ := m.old_.value.values;
    if AllCutsSkipped(relations, m) && m.oid in relations {
      forall v | v in old_ ensures ValidValue(v) && CutsHarmlessly(v) {
        var i :| 0 <= i < |old_| && old_[i] == v;
        SkippedRowIsHarmless(relations, m, i);
      }
    }
    if m.oid !in relations || forall v :: v in old_ ==> ValidValue(v) && CutsHarmlessly(v) {
      HarmlessRowsAreSkipped(relations, m);
    }
  }

  /**
   * How it fails: whenever a text of the old row begins with an encoded new row, a cut right
   * after that beginning yields an update with that row, which nobody sent.
   */
  lemma TruncatedOldRowMisreads(relations: Relations, m: Message, i: nat, fake: Tuple) returns (k: nat)
    requires Valid(m) && HasOldRow(m) && m.oid in relations && ValidTuple(fake)
    requires i < |m.old_.value.values| && m.old_.value.values[i].Text?
    requires [MARK_NEW] + EncodeTuple(fake) < m.old_.value.values[i].bytes
    ensures k < |Encode(m)|
    ensures Process(relations, Encode(m)[..k]) ==
      (relations, Update(relations[m.oid].name, FieldsOf(relations[m.oid].columns, fake)))
  {
    var left := [MARK_NEW] + EncodeTuple(fake);
    assert m.old_.value.values[i].bytes[..|left|] == left;
    assert left[1..] == EncodeTuple(fake) && EncodeTuple(fake) + [] == EncodeTuple(fake);
    TupleDecodes(fake, [], []);
    TupleDecodes(fake, [], relations[m.oid].columns);
    k := ValueCutDecodes(relations, m, i, |left| + 5);
  }

  /** The shortest such text, "N" and three NULs, cut after its third byte: an update of no column at all. */
  lemma MisreadExample(relations: Relations, oid: nat) returns (k: nat)
    requires oid < 0x1_0000_0000 && oid in relations
    ensures var m := UpdateMsg(oid, Some(OldTuple(false, [Text([MARK_NEW, 0, 0, 0])])), []);
      && Valid(m) && k < |Encode(m)|
      && Process(relations, Encode(m)[..k]) == (relations, Update(relations[oid].name, map[]))
  {
    var m := UpdateMsg(oid, Some(OldTuple(false, [Text([MARK_NEW, 0, 0, 0])])), []);
    assert [MARK_NEW] + EncodeTuple([]) == [MARK_NEW, 0, 0];
    assert [MARK_NEW, 0, 0, 0][..3] == [MARK_NEW, 0, 0];
    k := TruncatedOldRowMisreads(relations, m, 0, []);
  }
}
