/**
 Comparing a canonical table with its expected contents: one pass per table hashes every row,
 counts the rows and captures the sampled ones.
 */
module TableCheck {
  import opened Bits
  import opened Wrappers
  import opened Checksum

  datatype Position = Position(name: string, index: nat)

  datatype Summary = Summary(count: nat, checksum: state, sampleRows: seq<Option<TableRow>>)

  datatype Sample = Sample(position: string, expected: state, actual: Option<state>, passed: bool)

  /** Drops every element whose index repeats that of the last element kept. */
  function DedupByIndex(ps: seq<Position>): (r: seq<Position>)
    ensures |r| <= |ps| && (ps != [] ==> r != [] && r[|r| - 1].index == ps[|ps| - 1].index)
  {
    if ps == [] then []
    else
      var front, last := DedupByIndex(ps[..|ps| - 1]), ps[|ps| - 1];
      if front != [] && front[|front| - 1].index == last.index then front else front + [last]
  }

  /** The beginning, the middle and the end of a table, each row at most once. */
  function SamplePositions(count: nat): seq<Position> {
    if count == 0 then []
    else DedupByIndex([Position("beginning", 0), Position("middle", count / 2), Position("end", count - 1)])
  }

  lemma DedupAppend(front: seq<Position>, last: Position)
    ensures DedupByIndex(front + [last]) ==
            var kept := DedupByIndex(front);
            if kept != [] && kept[|kept| - 1].index == last.index then kept else kept + [last]
  {
    assert (front + [last])[..|front|] == front;
  }

  predicate Samples(ps: seq<Position>, index: nat) { exists k | 0 <= k < |ps| :: ps[k].index == index }

  lemma DedupThree(a: Position, b: Position, c: Position)
    ensures DedupByIndex([a, b, c]) ==
            if a.index == b.index then (if b.index == c.index then [a] else [a, c])
            else if b.index == c.index then [a, b] else [a, b, c]
  {
    DedupAppend([], a);
    DedupAppend([a], b);
    DedupAppend([a, b], c);
    assert DedupByIndex([]) == [];
    hide DedupByIndex;
    assert [] + [a] == [a] && [a] + [b] == [a, b] && [a, b] + [c] == [a, b, c] && [a] + [c] == [a, c];
  }

  lemma SamplePositionsAre(count: nat)
    requires count > 0
    ensures var a, b, c := Position("beginning", 0), Position("middle", count / 2), Position("end", count - 1);
            SamplePositions(count) == if count == 1 then [a] else if count == 2 then [a, b] else [a, b, c]
  {
    hide DedupByIndex;
    DedupThree(Position("beginning", 0), Position("middle", count / 2), Position("end", count - 1));
  }

  /** Every sampled row exists and is sampled once, and the first, middle and last rows are sampled. */
  lemma SamplePositionsSpread(count: nat)
    ensures var ps := SamplePositions(count);
            && (forall k | 0 <= k < |ps| :: ps[k].index < count)
            && (forall j, k | 0 <= j < k < |ps| :: ps[j].index < ps[k].index)
            && |ps| == (if count < 3 then count else 3)
            && (count > 0 ==> Samples(ps, 0) && Samples(ps, count / 2) && Samples(ps, count - 1))
  {
    if count == 0 {
      assert SamplePositions(count) == [];
    } else {
      SamplePositionsAre(count);
      hide SamplePositions;
      var ps := SamplePositions(count);
      assert ps[0].index == 0 && ps[|ps| - 1].index == count - 1;
      assert ps[if count == 1 then 0 else 1].index == count / 2;
    }
  }

  /** The 64-bit hash state that every byte of the stream updates. */
  class Hasher {
    var hash: state

    constructor ()
      ensures hash == OFFSET_BASIS
    {
      hash := OFFSET_BASIS;
    }

    method HashBytes(bytes: seq<byte>)
      modifies this
      ensures hash == Fnv(old(hash), bytes)
    {
      var i := 0;
      while i < |bytes|
        invariant 0 <= i <= |bytes| && hash == Fnv(old(hash), bytes[..i])
      {
        assert bytes[..i + 1][..i] == bytes[..i];
        hash := XorByte(hash, bytes[i]);
        hash := hash * PRIME % MODULUS;
        i := i + 1;
      }
      assert bytes[..i] == bytes;
    }

    method HashRow(row: TableRow)
      modifies this
      ensures hash == Fnv(old(hash), EncodeRow(row))
    {
      hide Fnv, BigEndian;
      ghost var start := hash;
      FnvEmpty(start);
      var i := 0;
      while i < |row|
        invariant 0 <= i <= |row| && hash == Fnv(start, EncodeValues(row[..i]))
      {
        ghost var before := hash;
        HashBytes([if row[i].Some? then 1 else 0]);
        if row[i].Some? {
          var text := row[i].value;
          HashBytes(BigEndian(|text|, 8));
          HashBytes(text);
          FnvSplit(before, [1], BigEndian(|text|, 8));
          FnvSplit(before, [1] + BigEndian(|text|, 8), text);
        }
        assert hash == Fnv(before, EncodeValue(row[i]));
        FnvSplit(start, EncodeValues(row[..i]), EncodeValue(row[i]));
        EncodeOneMore(row, i);
        i := i + 1;
      }
      HashBytes([0xff]);
      assert row[..i] == row;
      FnvSplit(start, EncodeValues(row), [0xff]);
    }
  }

  lemma FnvEmpty(h: state)
    ensures Fnv(h, []) == h
  {}

  lemma EncodeOneMore(row: TableRow, i: nat)
    requires i < |row|
    ensures EncodeValues(row[..i + 1]) == EncodeValues(row[..i]) + EncodeValue(row[i])
  {
    assert row[..i + 1] == row[..i] + [row[i]];
    EncodeValuesSplit(row[..i], [row[i]]);
    OneValue(row[i]);
  }

  lemma EncodeOneMoreRow(rows: seq<TableRow>, i: nat)
    requires i < |rows|
    ensures EncodeTable(rows[..i + 1]) == EncodeTable(rows[..i]) + EncodeRow(rows[i])
  {
    hide EncodeRow;
    assert rows[..i + 1] == rows[..i] + [rows[i]];
    EncodeTableSplit(rows[..i], [rows[i]]);
    OneRowTable(rows[i]);
    assert [] + [rows[i]] + [] == [rows[i]];
  }

  function RowAt(rows: seq<TableRow>, index: nat): Option<TableRow> {
    if index < |rows| then Some(rows[index]) else None
  }

  /** One pass over a table in key order. */
  method SummarizeTable(rows: seq<TableRow>, positions: seq<Position>) returns (s: Summary)
    ensures s.count == |rows|
    ensures s.checksum == Fnv(OFFSET_BASIS, EncodeTable(rows))
    ensures |s.sampleRows| == |positions|
    ensures forall k | 0 <= k < |positions| :: s.sampleRows[k] == RowAt(rows, positions[k].index)
  {
    hide Fnv, EncodeRow;
    FnvEmpty(OFFSET_BASIS);
    var hasher := new Hasher();
    var count := 0;
    var sampleRows: seq<Option<TableRow>> := seq(|positions|, _ => None);
    while count < |rows|
      invariant 0 <= count <= |rows| && |sampleRows| == |positions|
      invariant hasher.hash == Fnv(OFFSET_BASIS, EncodeTable(rows[..count]))
      invariant forall k | 0 <= k < |positions| :: sampleRows[k] == RowAt(rows[..count], positions[k].index)
    {
      var k := 0;
      while k < |positions|
        invariant 0 <= k <= |positions| == |sampleRows|
        invariant forall j | 0 <= j < k :: sampleRows[j] == RowAt(rows[..count + 1], positions[j].index)
        invariant forall j | k <= j < |positions| :: sampleRows[j] == RowAt(rows[..count], positions[j].index)
      {
        if count == positions[k].index { sampleRows := sampleRows[k := Some(rows[count])]; }
        k := k + 1;
      }
      FnvSplit(OFFSET_BASIS, EncodeTable(rows[..count]), EncodeRow(rows[count]));
      EncodeOneMoreRow(rows, count);
      hasher.HashRow(rows[count]);
      count := count + 1;
    }
    assert rows[..count] == rows;
    s := Summary(count, hasher.hash, sampleRows);
  }

  function RowChecksum(row: TableRow): state { Fnv(OFFSET_BASIS, EncodeRow(row)) }

  method ChecksumRow(row: TableRow) returns (checksum: state)
    ensures checksum == RowChecksum(row)
  {
    var hasher := new Hasher();
    hasher.HashRow(row);
    checksum := hasher.hash;
  }

  /** The sample taken at one position: its row must be there with the same checksum. */
  predicate SampleAgrees(sample: Sample, position: Position, expected: seq<TableRow>, actual: seq<TableRow>)
    requires position.index < |expected|
  {
    && sample.position == position.name
    && sample.expected == RowChecksum(expected[position.index])
    && sample.actual ==
       (if position.index < |actual| then Some(RowChecksum(actual[position.index])) else None)
    && (sample.passed <==>
        position.index < |actual| &&
        RowChecksum(actual[position.index]) == RowChecksum(expected[position.index]))
  }

  method TakeSample(position: Position, expected: TableRow, actual: Option<TableRow>) returns (sample: Sample)
    ensures sample.position == position.name && sample.expected == RowChecksum(expected)
    ensures sample.actual == (if actual.Some? then Some(RowChecksum(actual.value)) else None)
    ensures sample.passed <==> sample.actual == Some(sample.expected)
  {
    var expectedChecksum := ChecksumRow(expected);
    var actualChecksum := None;
    if actual.Some? {
      var checksum := ChecksumRow(actual.value);
      actualChecksum := Some(checksum);
    }
    sample := Sample(position.name, expectedChecksum, actualChecksum, actualChecksum == Some(expectedChecksum));
  }

  lemma SampleIsTaken(sample: Sample, position: Position, expected: seq<TableRow>, actual: seq<TableRow>)
    requires position.index < |expected| && sample.position == position.name
    requires sample.expected == RowChecksum(expected[position.index])
    requires var row := RowAt(actual, position.index);
             sample.actual == if row.Some? then Some(RowChecksum(row.value)) else None
    requires sample.passed <==> sample.actual == Some(sample.expected)
    ensures SampleAgrees(sample, position, expected, actual)
  {
    hide RowChecksum;
  }

  /** What a table check says: the two tables have as many rows and equal checksums. */
  predicate Passes(expected: seq<TableRow>, actual: seq<TableRow>) {
    |expected| == |actual| &&
    Fnv(OFFSET_BASIS, EncodeTable(expected)) == Fnv(OFFSET_BASIS, EncodeTable(actual))
  }

  /** Compares the rows of one table: a check over all of them and one sample per position. */
  method CheckTable(expected: seq<TableRow>, actual: seq<TableRow>) returns (passed: bool, samples: seq<Sample>)
    ensures passed <==> Passes(expected, actual)
    ensures |samples| == |SamplePositions(|expected|)|
    ensures forall k | 0 <= k < |samples| ::
              SamplePositions(|expected|)[k].index < |expected| &&
              SampleAgrees(samples[k], SamplePositions(|expected|)[k], expected, actual)
  {
    hide Fnv, EncodeTable, EncodeRow, RowChecksum;
    var positions := SamplePositions(|expected|);
    SamplePositionsSpread(|expected|);
    hide SamplePositions, SampleAgrees;
    var wanted := SummarizeTable(expected, positions);
    var found := SummarizeTable(actual, positions);
    passed := wanted.count == found.count && wanted.checksum == found.checksum;
    assert passed <==> Passes(expected, actual);
    hide Passes;
    samples := [];
    var k := 0;
    while k < |positions|
      invariant 0 <= k <= |positions| && |samples| == k
      invariant forall j | 0 <= j < k :: SampleAgrees(samples[j], positions[j], expected, actual)
    {
      if wanted.sampleRows[k].Some? {
        var sample := TakeSample(positions[k], wanted.sampleRows[k].value, found.sampleRows[k]);
        SampleIsTaken(sample, positions[k], expected, actual);
        samples := samples + [sample];
      }
      k := k + 1;
    }
  }

  /** One changed byte of one text fails the check of the whole table and the sample of that row. */
  lemma ChangedByteFails(above: seq<TableRow>, left: TableRow, u: seq<byte>, b: byte, c: byte, v: seq<byte>,
                         right: TableRow, below: seq<TableRow>)
    requires b != c
    ensures var x, y := left + [Some(u + [b] + v)] + right, left + [Some(u + [c] + v)] + right;
            !Passes(above + [x] + below, above + [y] + below) && RowChecksum(x) != RowChecksum(y)
  {
    hide Fnv, EncodeTable, EncodeRow;
    OneTextByteIsDetected(above, left, u, b, c, v, right, below);
    OneTextByteIsDetected([], left, u, b, c, v, right, []);
    OneRowTable(left + [Some(u + [b] + v)] + right);
    OneRowTable(left + [Some(u + [c] + v)] + right);
  }

  lemma OneRowTable(row: TableRow)
    ensures EncodeTable([] + [row] + []) == EncodeRow(row)
  {
    hide EncodeRow;
    assert [] + [row] + [] == [row] && [row][1..] == [];
  }

  /** Different tables are never hashed from the same bytes. */
  lemma DifferentTablesDifferentStreams(a: seq<TableRow>, b: seq<TableRow>)
    requires forall i | 0 <= i < |a| :: LengthsFit(a[i])
    requires forall i | 0 <= i < |b| :: LengthsFit(b[i])
    ensures EncodeTable(a) == EncodeTable(b) <==> a == b
  {
    hide EncodeTable, DecodeTable;
    DecodeUndoesEncode(a);
    DecodeUndoesEncode(b);
  }
}
