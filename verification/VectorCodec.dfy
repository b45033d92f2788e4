/**
 The raw vector codec: rows of 32-bit floats laid out one after the other, little-endian.
 A float is its bit pattern, so the laws hold bit for bit.
 */
module VectorCodec {
  import opened LittleEndian

  type Bits = b: nat | b < U32_LIMIT
  type Row = seq<Bits>
  type Matrix = seq<Row>

  datatype Decoded = Rows(rows: Matrix) | Overflow | WrongLength

  function EncodeRow(row: Row): (bytes: seq<Byte>)
    ensures |bytes| == 4 * |row|
  {
    if row == [] then [] else EncodeRow(row[..|row| - 1]) + Encode(row[|row| - 1], 4)
  }

  function EncodeRows(rows: Matrix): seq<Byte>
  {
    if rows == [] then [] else EncodeRows(rows[..|rows| - 1]) + EncodeRow(rows[|rows| - 1])
  }

  ghost predicate Rectangular(rows: Matrix, dimension: nat)
  {
    forall i :: 0 <= i < |rows| ==> |rows[i]| == dimension
  }

  method RawEncode(rows: Matrix) returns (encoded: seq<Byte>)
    ensures encoded == EncodeRows(rows)
  {
    hide EncodeRow;
    encoded := [];
    for i := 0 to |rows|
      invariant encoded == EncodeRows(rows[..i])
    {
      assert rows[..i + 1][..i] == rows[..i];
      encoded := AppendRow(encoded, rows[i]);
    }
    assert rows[..|rows|] == rows;
  }

  /** The inner loop: the values of one row, four bytes each. */
  method AppendRow(before: seq<Byte>, row: Row) returns (encoded: seq<Byte>)
    ensures encoded == before + EncodeRow(row)
  {
    hide Encode;
    encoded := before;
    for j := 0 to |row|
      invariant encoded == before + EncodeRow(row[..j])
    {
      assert row[..j + 1][..j] == row[..j];
      encoded := encoded + Encode(row[j], 4);
    }
    assert row[..|row|] == row;
  }

  function ReadBits(bytes: seq<Byte>): Bits
    requires |bytes| == 4
  {
    Widths();
    Decode(bytes)
  }

  function DecodeRow(data: seq<Byte>, dimension: nat): (row: Row)
    requires |data| == 4 * dimension
    ensures |row| == dimension
    decreases dimension
  {
    if dimension == 0 then [] else DecodeRow(data[..4 * (dimension - 1)], dimension - 1) + [ReadBits(data[4 * (dimension - 1)..])]
  }

  /** The byte count of a shape, row by row. */
  function Bytes(rows: nat, dimension: nat): nat
  {
    if rows == 0 then 0 else Bytes(rows - 1, dimension) + 4 * dimension
  }

  lemma {:induction false} BytesAre(rows: nat, dimension: nat)
    ensures Bytes(rows, dimension) == rows * dimension * 4
  {
    if rows > 0 {
      BytesAre(rows - 1, dimension);
      assert rows * dimension == (rows - 1) * dimension + dimension;
    }
  }

  lemma {:induction false} BytesMonotone(i: nat, rows: nat, dimension: nat)
    requires i <= rows
    ensures Bytes(i, dimension) <= Bytes(rows, dimension)
    decreases rows
  {
    if i < rows { BytesMonotone(i, rows - 1, dimension); }
  }

  function DecodeRows(data: seq<Byte>, rows: nat, dimension: nat): (m: Matrix)
    requires |data| == Bytes(rows, dimension)
    ensures |m| == rows
    decreases rows
  {
    if rows == 0 then []
    else
      var w := Bytes(rows - 1, dimension);
      DecodeRows(data[..w], rows - 1, dimension) + [DecodeRow(data[w..], dimension)]
  }

  /** `checked_mul` twice, then the length check. */
  function Decoding(data: seq<Byte>, rows: nat, dimension: nat): Decoded
  {
    if rows * dimension >= U64_LIMIT || rows * dimension * 4 >= U64_LIMIT then Overflow
    else if |data| != rows * dimension * 4 then WrongLength
    else BytesAre(rows, dimension); Rows(DecodeRows(data, rows, dimension))
  }

  method RawDecode(data: seq<Byte>, rows: nat, dimension: nat) returns (r: Decoded)
    ensures r == Decoding(data, rows, dimension)
  {
    var values := rows * dimension;
    if values >= U64_LIMIT || values * 4 >= U64_LIMIT { return Overflow; }
    if |data| != values * 4 { return WrongLength; }
    BytesAre(rows, dimension);
    var decoded := ReadRows(data, rows, dimension);
    r := Rows(decoded);
  }

  method ReadRows(data: seq<Byte>, rows: nat, dimension: nat) returns (decoded: Matrix)
    requires |data| == Bytes(rows, dimension)
    ensures decoded == DecodeRows(data, rows, dimension)
  {
    hide DecodeRow;
    decoded := [];
    var pos := 0;
    for i := 0 to rows
      invariant pos == Bytes(i, dimension) <= |data| && decoded == DecodeRows(data[..pos], i, dimension)
    {
      ghost var start := pos;
      BytesMonotone(i + 1, rows, dimension);
      var row := ReadRow(data, pos, dimension);
      pos := pos + 4 * dimension;
      assert data[..pos][..start] == data[..start] && data[..pos][start..] == data[start..pos];
      decoded := decoded + [row];
    }
    assert data[..pos] == data;
  }

  /** The inner loop: one row, read from `start` with a moving cursor. */
  method ReadRow(data: seq<Byte>, start: nat, dimension: nat) returns (row: Row)
    requires start + 4 * dimension <= |data|
    ensures row == DecodeRow(data[start..start + 4 * dimension], dimension)
  {
    row := [];
    var pos := start;
    for j := 0 to dimension
      invariant pos == start + 4 * j && row == DecodeRow(data[start..pos], j)
    {
      hide ReadBits, Decode;
      ghost var done := data[start..pos + 4];
      assert done[..4 * j] == data[start..pos] && done[4 * j..] == data[pos..pos + 4];
      row := row + [ReadBits(data[pos..pos + 4])];
      pos := pos + 4;
    }
  }

  // ----- the two directions

  lemma {:induction false} DecodeEncodedRow(row: Row)
    ensures DecodeRow(EncodeRow(row), |row|) == row
    decreases |row|
  {
    if row != [] {
      var n := |row| - 1;
      DecodeEncodedRow(row[..n]);
      Widths();
      DecodeEncode(row[n], 4);
      var bytes := EncodeRow(row);
      assert bytes[..4 * n] == EncodeRow(row[..n]) && bytes[4 * n..] == Encode(row[n], 4);
      assert row == row[..n] + [row[n]];
    }
  }

  lemma EncodeRowSnoc(row: Row, x: Bits)
    ensures EncodeRow(row + [x]) == EncodeRow(row) + Encode(x, 4)
  {
    hide Encode;
    assert (row + [x])[..|row|] == row;
  }

  lemma ReadBitsInverts(bytes: seq<Byte>)
    requires |bytes| == 4
    ensures Encode(ReadBits(bytes), 4) == bytes
  {
    EncodeDecode(bytes);
  }

  lemma {:induction false} EncodeDecodedRow(data: seq<Byte>, dimension: nat)
    requires |data| == 4 * dimension
    ensures EncodeRow(DecodeRow(data, dimension)) == data
    decreases dimension
  {
    hide EncodeRow, Encode, ReadBits;
    if dimension == 0 {
      EmptyRow();
    } else {
      var n := dimension - 1;
      var head := DecodeRow(data[..4 * n], n);
      EncodeDecodedRow(data[..4 * n], n);
      ReadBitsInverts(data[4 * n..]);
      EncodeRowSnoc(head, ReadBits(data[4 * n..]));
      assert data == data[..4 * n] + data[4 * n..];
    }
  }

  lemma EmptyRow()
    ensures EncodeRow([]) == []
  {
  }

  lemma EncodeRowsSnoc(rows: Matrix, row: Row)
    ensures EncodeRows(rows + [row]) == EncodeRows(rows) + EncodeRow(row)
  {
    hide EncodeRow;
    assert (rows + [row])[..|rows|] == rows;
  }

  lemma BytesSnoc(n: nat, dimension: nat)
    ensures Bytes(0, dimension) == 0 && Bytes(n + 1, dimension) == Bytes(n, dimension) + 4 * dimension
  {
  }

  lemma DecodeRowsSnoc(front: seq<Byte>, back: seq<Byte>, n: nat, dimension: nat)
    requires |front| == Bytes(n, dimension) && |back| == 4 * dimension && |front + back| == Bytes(n + 1, dimension)
    ensures DecodeRows(front + back, n + 1, dimension) == DecodeRows(front, n, dimension) + [DecodeRow(back, dimension)]
  {
    hide DecodeRow;
    assert (front + back)[..|front|] == front && (front + back)[|front|..] == back;
  }

  lemma NoRows(dimension: nat)
    ensures Bytes(0, dimension) == 0 && EncodeRows([]) == [] && DecodeRows([], 0, dimension) == []
  {
  }

  lemma {:induction false} DecodeEncodedRows(rows: Matrix, dimension: nat)
    requires Rectangular(rows, dimension)
    ensures |EncodeRows(rows)| == Bytes(|rows|, dimension) && DecodeRows(EncodeRows(rows), |rows|, dimension) == rows
    decreases |rows|
  {
    hide EncodeRow, DecodeRow, EncodeRows, DecodeRows, Bytes;
    if rows == [] {
      NoRows(dimension);
    } else {
      var n := |rows| - 1;
      DecodeEncodedRows(rows[..n], dimension);
      DecodeEncodedRow(rows[n]);
      assert rows == rows[..n] + [rows[n]];
      EncodeRowsSnoc(rows[..n], rows[n]);
      BytesSnoc(n, dimension);
      DecodeRowsSnoc(EncodeRows(rows[..n]), EncodeRow(rows[n]), n, dimension);
    }
  }

  lemma {:induction false} EncodeDecodedRows(data: seq<Byte>, rows: nat, dimension: nat)
    requires |data| == Bytes(rows, dimension)
    ensures Rectangular(DecodeRows(data, rows, dimension), dimension) && EncodeRows(DecodeRows(data, rows, dimension)) == data
    decreases rows
  {
    hide EncodeRow, DecodeRow, EncodeRows, DecodeRows, Bytes;
    if rows == 0 {
      NoRows(dimension);
    } else {
      var n := rows - 1;
      BytesSnoc(n, dimension);
      var front, back := data[..Bytes(n, dimension)], data[Bytes(n, dimension)..];
      assert data == front + back;
      EncodeDecodedRows(front, n, dimension);
      EncodeDecodedRow(back, dimension);
      DecodeRowsSnoc(front, back, n, dimension);
      EncodeRowsSnoc(DecodeRows(front, n, dimension), DecodeRow(back, dimension));
    }
  }

  /** The shapes whose byte count fits a machine word. */
  predicate Fits(rows: nat, dimension: nat)
  {
    rows * dimension * 4 < U64_LIMIT
  }

  /**
   At a fixed shape the codec is a bijection between matrices of that shape and byte strings
   of that length; decoding fails exactly on another length or on a shape that overflows.
   */
  lemma RoundTrip(rows: Matrix, dimension: nat)
    requires Rectangular(rows, dimension)
    ensures Decoding(EncodeRows(rows), |rows|, dimension) == if Fits(|rows|, dimension) then Rows(rows) else Overflow
  {
    DecodeEncodedRows(rows, dimension);
    BytesAre(|rows|, dimension);
    hide EncodeRows, DecodeRows;
  }

  lemma DecodedIsEncoded(data: seq<Byte>, rows: nat, dimension: nat)
    ensures Decoding(data, rows, dimension).Rows? <==> Fits(rows, dimension) && |data| == rows * dimension * 4
    ensures Decoding(data, rows, dimension).Overflow? <==> !Fits(rows, dimension)
    ensures Decoding(data, rows, dimension).Rows? ==>
      var m := Decoding(data, rows, dimension).rows;
      |m| == rows && Rectangular(m, dimension) && EncodeRows(m) == data
  {
    BytesAre(rows, dimension);
    if |data| == Bytes(rows, dimension) { EncodeDecodedRows(data, rows, dimension); }
    hide EncodeRows, DecodeRows, Rectangular;
  }
}
