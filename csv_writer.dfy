/**
 * `generate_csv`, identical in fgviptocsv.py and fgaddressestocsv.py: one
 * header row with the column list, then one row per record with a cell per
 * column, each data row optionally followed by an empty row. The rows are
 * modelled as lists of cells; turning them into `;`-separated bytes is the
 * `csv` module's business and is not part of this model.
 */
module CsvWriter {
  import opened Scanner

  /** What `generate_csv` hands to the csv writer, or that the output file is never opened. */
  datatype CsvOutput = NothingWritten | Written(rows: seq<seq<string>>)

  /** The cell of one column: the record's value, or the empty string when the record lacks the key. */
  function Cell(rec: Record, key: string): string {
    if key in rec then rec[key] else ""
  }

  /** `output_line`: the cells of one record, in column order. */
  function DataRow(rec: Record, keys: seq<string>): seq<string> {
    seq(|keys|, i requires 0 <= i < |keys| => Cell(rec, keys[i]))
  }

  /** The header row, unless it is skipped. */
  function Header(keys: seq<string>, skipHeader: bool): seq<seq<string>> {
    if skipHeader then [] else [keys]
  }

  /** The rows written for the records, each data row followed by an empty one when `newline` is set. */
  function Body(results: seq<Record>, keys: seq<string>, newline: bool): seq<seq<string>>
    decreases |results|
  {
    if results == [] then []
    else
      Body(results[..|results| - 1], keys, newline)
      + [DataRow(results[|results| - 1], keys)]
      + (if newline then [[]] else [])
  }

  /** Everything `generate_csv` writes for the given arguments. */
  function Generated(results: seq<Record>, keys: seq<string>, newline: bool, skipHeader: bool): CsvOutput {
    if |results| == 0 || |keys| == 0 then NothingWritten
    else Written(Header(keys, skipHeader) + Body(results, keys, newline))
  }

  /** The row index of the i-th record's data row within the body. */
  function BodyPos(i: nat, newline: bool): nat {
    if newline then 2 * i else i
  }

  /**
   * `generate_csv`: the outer loop walks the records in order, the inner loop
   * builds `output_line` one column at a time.
   */
  method GenerateCsv(results: seq<Record>, keys: seq<string>, newline: bool, skipHeader: bool) returns (out: CsvOutput)
    ensures out == Generated(results, keys, newline, skipHeader)
  {
    if |results| == 0 || |keys| == 0 {
      return NothingWritten;
    }
    var rows: seq<seq<string>> := [];
    if !skipHeader {
      rows := rows + [keys];
    }
    var i := 0;
    while i < |results|
      invariant 0 <= i <= |results|
      invariant rows == Header(keys, skipHeader) + Body(results[..i], keys, newline)
    {
      var address := results[i];
      var outputLine: seq<string> := [];
      var j := 0;
      while j < |keys|
        invariant 0 <= j <= |keys|
        invariant outputLine == DataRow(address, keys[..j])
      {
        if keys[j] in address {
          outputLine := outputLine + [address[keys[j]]];
        } else {
          outputLine := outputLine + [""];
        }
        j := j + 1;
      }
      assert keys[..j] == keys;
      rows := rows + [outputLine];
      if newline {
        rows := rows + [[]];
      }
      assert results[..i + 1][..i] == results[..i];
      i := i + 1;
    }
    assert results[..i] == results;
    out := Written(rows);
  }

  /** A data row has one cell per column: the record's value, or empty for a key it lacks. */
  lemma DataRowCells(rec: Record, keys: seq<string>)
    ensures |DataRow(rec, keys)| == |keys|
    ensures forall i :: 0 <= i < |keys| && keys[i] in rec ==> DataRow(rec, keys)[i] == rec[keys[i]]
    ensures forall i :: 0 <= i < |keys| && keys[i] !in rec ==> DataRow(rec, keys)[i] == ""
  {
  }

  /**
   * The body holds, in record order, each record's data row, and, when
   * `newline` is set, an empty row right after each of them; nothing else.
   */
  lemma {:induction false} BodyLayout(results: seq<Record>, keys: seq<string>, newline: bool)
    ensures |Body(results, keys, newline)| == BodyPos(|results|, newline)
    ensures forall i :: 0 <= i < |results| ==>
      Body(results, keys, newline)[BodyPos(i, newline)] == DataRow(results[i], keys)
    ensures newline ==> forall i :: 0 <= i < |results| ==> Body(results, keys, newline)[2 * i + 1] == []
    decreases |results|
  {
    if results != [] {
      var n := |results| - 1;
      var front := results[..n];
      BodyLayout(front, keys, newline);
      var b := Body(results, keys, newline);
      var bf := Body(front, keys, newline);
      assert b[..|bf|] == bf;
      forall i | 0 <= i < |results|
        ensures b[BodyPos(i, newline)] == DataRow(results[i], keys)
      {
        if i < n {
          assert results[i] == front[i];
          assert b[BodyPos(i, newline)] == bf[BodyPos(i, newline)];
        }
      }
      if newline {
        forall i | 0 <= i < |results|
          ensures b[2 * i + 1] == []
        {
          if i < n {
            assert b[2 * i + 1] == bf[2 * i + 1];
          }
        }
      }
    }
  }

  /**
   * The layout of a written file: nothing when there are no records or no
   * columns; otherwise the header row `keys` unless it is skipped, then the
   * records' data rows in order, each of width |keys|, with an empty row after
   * each exactly when `newline` is set.
   */
  lemma CsvLayout(results: seq<Record>, keys: seq<string>, newline: bool, skipHeader: bool)
    ensures Generated(results, keys, newline, skipHeader).NothingWritten? <==> |results| == 0 || |keys| == 0
    ensures Generated(results, keys, newline, skipHeader).Written? ==>
      var rows := Generated(results, keys, newline, skipHeader).rows;
      var h := if skipHeader then 0 else 1;
      && |rows| == h + BodyPos(|results|, newline)
      && (!skipHeader ==> rows[0] == keys)
      && (forall i :: 0 <= i < |results| ==> rows[h + BodyPos(i, newline)] == DataRow(results[i], keys))
      && (forall i :: 0 <= i < |results| ==> |rows[h + BodyPos(i, newline)]| == |keys|)
      && (newline ==> forall i :: 0 <= i < |results| ==> rows[h + 2 * i + 1] == [])
  {
    BodyLayout(results, keys, newline);
  }

  /** Empty rows appear only with `newline`: the header and every data row have at least one cell. */
  lemma BlankRowsOnlyWithNewline(results: seq<Record>, keys: seq<string>, skipHeader: bool)
    requires Generated(results, keys, false, skipHeader).Written?
    ensures forall r :: r in Generated(results, keys, false, skipHeader).rows ==> |r| == |keys| > 0
  {
    var rows := Generated(results, keys, false, skipHeader).rows;
    var h := if skipHeader then 0 else 1;
    CsvLayout(results, keys, false, skipHeader);
    forall r | r in rows
      ensures |r| == |keys|
    {
      var j :| 0 <= j < |rows| && rows[j] == r;
      if j >= h {
        assert BodyPos(j - h, false) == j - h;
      }
    }
  }

  // ---------------------------------------------------------------- reading a row back

  /**
   * The record a data row stands for, read back against the header: every
   * non-empty cell under its column. An empty cell reads as a missing key, the
   * one thing the file cannot tell apart.
   */
  function RecordOf(keys: seq<string>, row: seq<string>): Record
    requires |keys| == |row|
    decreases |keys|
  {
    if keys == [] then map[]
    else
      var n := |keys| - 1;
      var front := RecordOf(keys[..n], row[..n]);
      if row[n] == "" then front else front[keys[n] := row[n]]
  }

  /** Reading a data row back gives the record's non-empty values for the columns in the header. */
  lemma {:induction false} ReadBackRow(rec: Record, keys: seq<string>)
    ensures RecordOf(keys, DataRow(rec, keys)) == (map k | k in rec && k in keys && rec[k] != "" :: rec[k])
    decreases |keys|
  {
    if keys != [] {
      var n := |keys| - 1;
      var row := DataRow(rec, keys);
      assert row[..n] == DataRow(rec, keys[..n]);
      ReadBackRow(rec, keys[..n]);
      var front := map k | k in rec && k in keys[..n] && rec[k] != "" :: rec[k];
      var whole := map k | k in rec && k in keys && rec[k] != "" :: rec[k];
      assert forall k :: k in keys <==> k in keys[..n] || k == keys[n];
      if row[n] == "" {
        assert RecordOf(keys, row) == front;
        assert front == whole;
      } else {
        assert RecordOf(keys, row) == front[keys[n] := row[n]];
        assert front[keys[n] := row[n]] == whole;
      }
    }
  }

  /**
   * A record whose keys are all columns and whose values are all non-empty is
   * written without loss: its data row reads back to the record itself.
   */
  lemma RowRoundTrip(rec: Record, keys: seq<string>)
    requires forall k :: k in rec ==> k in keys && rec[k] != ""
    ensures RecordOf(keys, DataRow(rec, keys)) == rec
  {
    ReadBackRow(rec, keys);
  }
}
