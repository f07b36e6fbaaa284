/** The column buffers of src/storage/column_buffer.cpp. */
module ColumnBuffers {
  import opened Ast
  import opened Values
  import opened TextLayout

  class IntColumnBuffer {
    var values: seq<Int64>

    constructor ()
      ensures values == []
    {
      values := [];
    }

    method Append(value: Int64)
      modifies this
      ensures values == old(values) + [value]
    {
      values := values + [value];
    }

    method AppendSpan(span: seq<Int64>)
      modifies this
      ensures values == old(values) + span
    {
      values := values + span;
    }

    function At(index: nat): Int64
      requires index < |values|
      reads this
    {
      values[index]
    }

    function Size(): nat
      reads this
    {
      |values|
    }
  }

  /** The strings of a buffer after a batch. */
  ghost function TextsAfter(texts: seq<string>, offsets: seq<Uint32>, bytes: string, rowCount: nat): seq<string>
    requires ValidOffsets(offsets, bytes, rowCount)
  {
    if 0 < rowCount then texts + AbsorbedTexts(offsets, bytes, rowCount)
    else if texts == [] then []
    else LengthenLast(texts, bytes)
  }

  lemma AppendsLayout(texts: seq<string>, offsets: seq<Uint32>, bytes: string, rowCount: nat)
    requires ValidOffsets(offsets, bytes, rowCount)
    ensures var after := TextsAfter(texts, offsets, bytes, rowCount);
      && StoredOffsets(after) == StoredOffsets(texts) + Rebased(|Concat(texts)|, offsets, rowCount)
      && (Concat(after) == Concat(texts) + bytes <==> !(rowCount == 0 && texts == [] && bytes != ""))
  {
    if 0 < rowCount {
      AppendAbsorbed(texts, offsets, bytes, rowCount);
    } else if texts != [] {
      AppendNoRows(texts, bytes);
    }
  }

  /** `texts` is what was appended; the two real fields always hold its layout, wrapped or not. */
  class TextColumnBuffer {
    var offsets: seq<Uint32>
    var bytes: string
    ghost var texts: seq<string>

    ghost predicate Valid()
      reads this
    {
      offsets == StoredOffsets(texts) && bytes == Concat(texts)
    }

    constructor ()
      ensures Valid() && texts == []
    {
      offsets, bytes, texts := [], "", [];
    }

    method Append(value: string)
      requires Valid()
      modifies this
      ensures Valid() && texts == old(texts) + [value]
    {
      AppendOne(texts, value);
      offsets := offsets + [|bytes| % UINT32];
      bytes := bytes + value;
      texts := texts + [value];
    }

    /**
     * The whole blob is copied. Without rows it lengthens the last string; if there is none either,
     * bytes are left before the first string, and the buffer is no longer the layout of its strings.
     */
    method AppendBatch(batchOffsets: seq<Uint32>, batchBytes: string, rowCount: nat)
      requires rowCount <= |batchOffsets|
      modifies this
      ensures bytes == old(bytes) + batchBytes
      ensures offsets == old(offsets) + Rebased(|old(bytes)|, batchOffsets, rowCount)
      ensures old(Valid()) && ValidOffsets(batchOffsets, batchBytes, rowCount) ==>
        && (Valid() <==> !(rowCount == 0 && old(texts) == [] && batchBytes != ""))
        && (Valid() ==> texts == TextsAfter(old(texts), batchOffsets, batchBytes, rowCount))
    {
      var baseOffset := |bytes|;
      ghost var valid := Valid() && ValidOffsets(batchOffsets, batchBytes, rowCount);
      bytes := bytes + batchBytes;
      for rowIndex := 0 to rowCount
        invariant offsets == old(offsets) + Rebased(baseOffset, batchOffsets, rowIndex)
        invariant bytes == old(bytes) + batchBytes && texts == old(texts)
      {
        offsets := offsets + [(baseOffset + batchOffsets[rowIndex]) % UINT32];
      }
      if valid {
        AppendsLayout(texts, batchOffsets, batchBytes, rowCount);
        texts := TextsAfter(texts, batchOffsets, batchBytes, rowCount);
      }
    }

    function At(index: nat): (text: string)
      requires Valid() && index < |offsets|
      reads this
      ensures Fits(texts, index) ==> text == texts[index]
    {
      ReadRange(texts, index);
      assert Fits(texts, index) ==> ReadText(offsets, bytes, index) == texts[index] by {
        if Fits(texts, index) {
          ReadBack(texts, index);
        }
      }
      ReadText(offsets, bytes, index)
    }

    function Size(): nat
      reads this
    {
      |offsets|
    }
  }

  function IntCells(values: seq<Int64>): seq<Value> {
    seq(|values|, i requires 0 <= i < |values| => FromInt(values[i]))
  }

  function TextCells(texts: seq<string>): seq<Value> {
    seq(|texts|, i requires 0 <= i < |texts| => FromText(texts[i]))
  }

  datatype ColumnBuffer = IntColumn(ints: IntColumnBuffer) | TextColumn(strings: TextColumnBuffer) {
    function Object(): object {
      match this
      case IntColumn(b) => b
      case TextColumn(b) => b
    }

    ghost predicate Valid()
      reads Object()
    {
      TextColumn? ==> strings.Valid()
    }

    function ColumnType(): LogicalType {
      if IntColumn? then IntType else TextType
    }

    function Size(): nat
      reads Object()
    {
      match this
      case IntColumn(b) => b.Size()
      case TextColumn(b) => b.Size()
    }

    /** The appended values, in order. */
    ghost function Cells(): seq<Value>
      reads Object()
    {
      match this
      case IntColumn(b) => IntCells(b.values)
      case TextColumn(b) => TextCells(b.texts)
    }
  }

  method MakeColumnBuffer(columnType: LogicalType) returns (buffer: ColumnBuffer)
    ensures fresh(buffer.Object()) && buffer.Valid()
    ensures buffer.ColumnType() == columnType && buffer.Cells() == []
  {
    match columnType {
      case IntType =>
        var ints := new IntColumnBuffer();
        buffer := IntColumn(ints);
      case TextType =>
        var strings := new TextColumnBuffer();
        buffer := TextColumn(strings);
    }
  }
}
