/** The row loader of csv_fhirify.py: rows of several CSV sources folded into
    one record per value of the join column. Files are given as their parsed
    lines (reading, decoding and CSV parsing are not modelled). */
module RowLoader {
  import opened Outcomes
  import opened Dicts
  import opened Text

  /** One source row or consolidated record: column name to cell. */
  type Row = ODict<string>

  /** The consolidated records, keyed by join-column value. */
  type RowInfo = ODict<Row>

  /** An entry of columns_to_keep: a column name, or a list of names kept together. */
  datatype KeepItem = Column(name: string) | Alternates(names: seq<string>)

  /** One configured source: its CSV lines (the first is the header), the
      skip_first_line flag, and its columns_to_keep and
      multiple_columns_to_keep entries when the configuration has them. */
  datatype SourceFile = SourceFile(
    lines: seq<seq<string>>,
    skipFirstLine: bool,
    columnsToKeep: Option<seq<KeepItem>>,
    multipleColumnsToKeep: Option<seq<KeepItem>>)

  /** get_current_row: the record stored for key, or a new empty one. */
  function GetCurrentRow(info: RowInfo, key: string): (r: Row)
    ensures key in info.vals ==> r == info.vals[key]
    ensures key !in info.vals ==> r.keys == [] && r.vals == map[]
  {
    if key in info.vals then info.vals[key] else Empty()
  }

  function Names(item: KeepItem): seq<string> {
    match item
    case Column(n) => [n]
    case Alternates(ns) => ns
  }

  /** The names of keep, nested lists flattened one level, in order. */
  function Flatten(keep: seq<KeepItem>): seq<string> {
    if keep == [] then [] else Names(keep[0]) + Flatten(keep[1..])
  }

  /** list.index: the position of the first occurrence of x. */
  function IndexOf(s: seq<string>, x: string): (i: nat)
    requires x in s
    ensures i < |s| && s[i] == x && x !in s[..i]
  {
    if s[0] == x then 0 else 1 + IndexOf(s[1..], x)
  }

  predicate AllIn(names: seq<string>, headers: seq<string>) {
    forall n :: n in names ==> n in headers
  }

  /** The first name of names that headers lacks. */
  function FirstMissing(headers: seq<string>, names: seq<string>): (m: string)
    requires !AllIn(names, headers)
    ensures m in names && m !in headers
  {
    if names[0] !in headers then names[0] else FirstMissing(headers, names[1..])
  }

  /** The header position of each name. */
  function Positions(headers: seq<string>, names: seq<string>): (r: seq<nat>)
    requires AllIn(names, headers)
    ensures |r| == |names|
    ensures forall p :: 0 <= p < |names| ==> r[p] == IndexOf(headers, names[p])
  {
    seq(|names|, p requires 0 <= p < |names| => IndexOf(headers, names[p]))
  }

  /** The inner loop of get_row_indices: the positions of one entry's names
      appended to acc, or the ValueError of list.index. */
  function LookUp(headers: seq<string>, names: seq<string>, acc: seq<nat>): Result<seq<nat>>
    decreases |names|
  {
    if names == [] then Ok(acc)
    else if names[0] !in headers then Err(ValueError(names[0]))
    else LookUp(headers, names[1..], acc + [IndexOf(headers, names[0])])
  }

  /** The outer loop of get_row_indices, entry by entry. */
  function LookUpAll(headers: seq<string>, keep: seq<KeepItem>, acc: seq<nat>): Result<seq<nat>>
    decreases |keep|
  {
    if keep == [] then Ok(acc)
    else
      var acc' :- LookUp(headers, Names(keep[0]), acc);
      LookUpAll(headers, keep[1..], acc')
  }

  /** What get_row_indices returns or raises. */
  function RowIndices(headers: seq<string>, keep: seq<KeepItem>): Result<seq<nat>> {
    LookUpAll(headers, keep, [])
  }

  /** The positions of names after acc if all are headers, else the error for
      the first missing one. */
  function Located(headers: seq<string>, names: seq<string>, acc: seq<nat>): Result<seq<nat>> {
    if AllIn(names, headers) then Ok(acc + Positions(headers, names))
    else Err(ValueError(FirstMissing(headers, names)))
  }

  lemma {:induction false} LookUpLocates(headers: seq<string>, names: seq<string>, acc: seq<nat>)
    ensures LookUp(headers, names, acc) == Located(headers, names, acc)
    decreases |names|
  {
    if names == [] {
      assert acc + Positions(headers, names) == acc;
    } else if names[0] !in headers {
      assert names[0] in names;
    } else {
      var tail := names[1..];
      var acc' := acc + [IndexOf(headers, names[0])];
      LookUpLocates(headers, tail, acc');
      assert forall n :: n in names <==> n == names[0] || n in tail;
      if AllIn(names, headers) {
        assert Positions(headers, names) == [IndexOf(headers, names[0])] + Positions(headers, tail);
        assert acc + Positions(headers, names) == acc' + Positions(headers, tail);
      } else {
        assert !AllIn(tail, headers);
      }
    }
  }

  lemma {:induction false} LocatedAppend(headers: seq<string>, a: seq<string>, b: seq<string>, acc: seq<nat>)
    ensures Located(headers, a + b, acc) ==
      match Located(headers, a, acc)
      case Err(e) => Err(e)
      case Ok(acc') => Located(headers, b, acc')
    decreases |a|
  {
    if a == [] {
      assert a + b == b;
      assert acc + Positions(headers, a) == acc;
    } else {
      var x := a[0];
      assert (a + b)[0] == x;
      assert (a + b)[1..] == a[1..] + b;
      if x in headers {
        LocatedAppend(headers, a[1..], b, acc + [IndexOf(headers, x)]);
        LookUpLocates(headers, a, acc);
        LookUpLocates(headers, a + b, acc);
        LookUpLocates(headers, a[1..], acc + [IndexOf(headers, x)]);
        LookUpLocates(headers, a[1..] + b, acc + [IndexOf(headers, x)]);
      } else {
        assert !AllIn(a + b, headers);
        assert !AllIn(a, headers);
      }
    }
  }

  lemma {:induction false} LookUpAllLocates(headers: seq<string>, keep: seq<KeepItem>, acc: seq<nat>)
    ensures LookUpAll(headers, keep, acc) == Located(headers, Flatten(keep), acc)
    decreases |keep|
  {
    if keep == [] {
      assert acc + Positions(headers, Flatten(keep)) == acc;
    } else {
      LookUpLocates(headers, Names(keep[0]), acc);
      LocatedAppend(headers, Names(keep[0]), Flatten(keep[1..]), acc);
      var first := LookUp(headers, Names(keep[0]), acc);
      if first.Ok? {
        LookUpAllLocates(headers, keep[1..], first.value);
      }
    }
  }

  /** The names an index list writes, in order. */
  function Written(headers: seq<string>, indices: seq<nat>): (r: seq<string>)
    requires forall p :: 0 <= p < |indices| ==> indices[p] < |headers|
    ensures |r| == |indices|
    ensures forall p :: 0 <= p < |indices| ==> r[p] == headers[indices[p]]
  {
    seq(|indices|, p requires 0 <= p < |indices| => headers[indices[p]])
  }

  /** Different indices of the list name different columns. */
  ghost predicate NamesDistinct(headers: seq<string>, indices: seq<nat>)
    requires forall p :: 0 <= p < |indices| ==> indices[p] < |headers|
  {
    forall p, q :: 0 <= p < |indices| && 0 <= q < |indices| && headers[indices[p]] == headers[indices[q]] ==> indices[p] == indices[q]
  }

  /** get_row_indices yields, in to_keep order and flattened one level, the
      position of the first header equal to each kept name, so different
      positions name different columns; a kept name that is not a header
      raises ValueError for the first such name, so the source's "> -1"
      guard never drops a column. */
  lemma RowIndicesMeaning(headers: seq<string>, keep: seq<KeepItem>)
    ensures RowIndices(headers, keep).Ok? <==> AllIn(Flatten(keep), headers)
    ensures RowIndices(headers, keep).Err? ==>
      RowIndices(headers, keep).error == ValueError(FirstMissing(headers, Flatten(keep)))
    ensures RowIndices(headers, keep).Ok? ==>
      var ix := RowIndices(headers, keep).value;
      && |ix| == |Flatten(keep)|
      && (forall p :: 0 <= p < |ix| ==> ix[p] < |headers| && headers[ix[p]] == Flatten(keep)[p])
      && (forall p :: 0 <= p < |ix| ==> ix[p] == IndexOf(headers, Flatten(keep)[p]))
      && NamesDistinct(headers, ix)
  {
    LookUpAllLocates(headers, keep, []);
    if AllIn(Flatten(keep), headers) {
      assert RowIndices(headers, keep).value == Positions(headers, Flatten(keep));
    }
  }

  /** The inner loop of get_row_indices, proved to compute LookUp. */
  method LookUpNames(headers: seq<string>, names: seq<string>, acc: seq<nat>) returns (r: Result<seq<nat>>)
    ensures r == LookUp(headers, names, acc)
  {
    var indices := acc;
    var j := 0;
    while j < |names|
      invariant 0 <= j <= |names|
      invariant LookUp(headers, names[j..], indices) == LookUp(headers, names, acc)
    {
      assert names[j..][1..] == names[j + 1..];
      if names[j] !in headers {
        return Err(ValueError(names[j]));
      }
      indices := indices + [IndexOf(headers, names[j])];
      j := j + 1;
    }
    r := Ok(indices);
  }

  /** get_row_indices, proved to compute RowIndices. */
  method GetRowIndices(headers: seq<string>, keep: seq<KeepItem>) returns (r: Result<seq<nat>>)
    ensures r == RowIndices(headers, keep)
  {
    var indices: seq<nat> := [];
    var i := 0;
    while i < |keep|
      invariant 0 <= i <= |keep|
      invariant LookUpAll(headers, keep[i..], indices) == RowIndices(headers, keep)
    {
      assert keep[i..][1..] == keep[i + 1..];
      var next := LookUpNames(headers, Names(keep[i]), indices);
      if next.Err? {
        return Err(next.error);
      }
      indices := next.value;
      i := i + 1;
    }
    r := Ok(indices);
  }

  /** current_row_info[headers[index]] = row[index] for each index in turn;
      a row too short for an index raises IndexError. */
  function StoreCells(cur: Row, headers: seq<string>, indices: seq<nat>, row: seq<string>): Result<Row>
    requires forall p :: 0 <= p < |indices| ==> indices[p] < |headers|
    decreases |indices|
  {
    if indices == [] then Ok(cur)
    else if indices[0] >= |row| then Err(IndexError)
    else StoreCells(Put(cur, headers[indices[0]], row[indices[0]]), headers, indices[1..], row)
  }

  /** One data row of a file folded into the records. */
  function FoldRow(info: RowInfo, headers: seq<string>, indices: seq<nat>, joinKey: string, row: seq<string>): Result<RowInfo>
    requires forall p :: 0 <= p < |indices| ==> indices[p] < |headers|
  {
    if joinKey !in headers then Err(ValueError(joinKey))
    else
      var j := IndexOf(headers, joinKey);
      if j >= |row| then Err(IndexError)
      else
        var cells :- StoreCells(GetCurrentRow(info, row[j]), headers, indices, row);
        Ok(Put(info, row[j], cells))
  }

  /** The data rows of a file folded in order; the first failing row aborts. */
  function FoldRows(info: RowInfo, headers: seq<string>, indices: seq<nat>, joinKey: string, rows: seq<seq<string>>): Result<RowInfo>
    requires forall p :: 0 <= p < |indices| ==> indices[p] < |headers|
    decreases |rows|
  {
    if rows == [] then Ok(info)
    else
      var info' :- FoldRow(info, headers, indices, joinKey, rows[0]);
      FoldRows(info', headers, indices, joinKey, rows[1..])
  }

  /** The header line with spaces stripped from each name. */
  function Headers(line: seq<string>): seq<string> {
    seq(|line|, i requires 0 <= i < |line| => StripBlanks(line[i]))
  }

  /** Each header is its cell with the spaces at both ends cut off, and
      nothing else: tabs and other whitespace stay. */
  lemma HeadersStripped(line: seq<string>)
    ensures |Headers(line)| == |line|
    ensures forall i :: 0 <= i < |line| ==> StrippedTo(line[i], Headers(line)[i], IsBlank)
  {
    forall i | 0 <= i < |line|
      ensures StrippedTo(line[i], Headers(line)[i], IsBlank)
    {
      StripBlanksIsSlice(line[i]);
    }
  }

  /** The lines after the header, without the first one if skip_first_line. */
  function DataLines(file: SourceFile): seq<seq<string>>
    requires |file.lines| > 0
  {
    if file.skipFirstLine && |file.lines| > 1 then file.lines[2..] else file.lines[1..]
  }

  /** The columns to keep: columns_to_keep when configured, otherwise
      multiple_columns_to_keep, whose lookup raises KeyError when it is
      missing too. */
  function KeepList(file: SourceFile): Result<seq<KeepItem>> {
    match file.columnsToKeep
    case Some(keep) => Ok(keep)
    case None =>
      match file.multipleColumnsToKeep
      case Some(keep) => Ok(keep)
      case None => Err(KeyError("multiple_columns_to_keep"))
  }

  /** One file folded into the records; an empty file has no header line and
      stripping None raises TypeError. */
  function LoadFile(info: RowInfo, file: SourceFile, joinKey: string): Result<RowInfo> {
    if |file.lines| == 0 then Err(TypeError)
    else
      var headers := Headers(file.lines[0]);
      var keep :- KeepList(file);
      var indices :- RowIndices(headers, keep);
      RowIndicesMeaning(headers, keep);
      FoldRows(info, headers, indices, joinKey, DataLines(file))
  }

  /** The files folded in configuration order. */
  function LoadFiles(info: RowInfo, files: seq<SourceFile>, joinKey: string): Result<RowInfo>
    decreases |files|
  {
    if files == [] then Ok(info)
    else
      var info' :- LoadFile(info, files[0], joinKey);
      LoadFiles(info', files[1..], joinKey)
  }

  /** The body of the row loop of generate_row_info, proved to compute FoldRow. */
  method StoreRow(info: RowInfo, headers: seq<string>, indices: seq<nat>, joinKey: string, row: seq<string>)
    returns (r: Result<RowInfo>)
    requires forall p :: 0 <= p < |indices| ==> indices[p] < |headers|
    ensures r == FoldRow(info, headers, indices, joinKey, row)
  {
    if joinKey !in headers {
      return Err(ValueError(joinKey));
    }
    var j := IndexOf(headers, joinKey);
    if j >= |row| {
      return Err(IndexError);
    }
    var current := GetCurrentRow(info, row[j]);
    var p := 0;
    while p < |indices|
      invariant 0 <= p <= |indices|
      invariant StoreCells(current, headers, indices[p..], row) == StoreCells(GetCurrentRow(info, row[j]), headers, indices, row)
    {
      if indices[p] >= |row| {
        return Err(IndexError);
      }
      current := Put(current, headers[indices[p]], row[indices[p]]);
      assert indices[p..][1..] == indices[p + 1..];
      p := p + 1;
    }
    r := Ok(Put(info, row[j], current));
  }

  /** The row loop of generate_row_info for one file, proved to compute FoldRows. */
  method StoreRows(info: RowInfo, headers: seq<string>, indices: seq<nat>, joinKey: string, rows: seq<seq<string>>)
    returns (r: Result<RowInfo>)
    requires forall p :: 0 <= p < |indices| ==> indices[p] < |headers|
    ensures r == FoldRows(info, headers, indices, joinKey, rows)
  {
    var acc := info;
    var k := 0;
    while k < |rows|
      invariant 0 <= k <= |rows|
      invariant FoldRows(acc, headers, indices, joinKey, rows[k..]) == FoldRows(info, headers, indices, joinKey, rows)
    {
      assert rows[k..][1..] == rows[k + 1..];
      var next := StoreRow(acc, headers, indices, joinKey, rows[k]);
      if next.Err? {
        return Err(next.error);
      }
      acc := next.value;
      k := k + 1;
    }
    r := Ok(acc);
  }

  /** One file of generate_row_info, proved to compute LoadFile. */
  method LoadOneFile(info: RowInfo, file: SourceFile, joinKey: string) returns (r: Result<RowInfo>)
    ensures r == LoadFile(info, file, joinKey)
  {
    if |file.lines| == 0 {
      return Err(TypeError);
    }
    var headers := Headers(file.lines[0]);
    var data := file.lines[1..];
    if file.skipFirstLine && |data| > 0 {
      data := data[1..];
    }
    assert data == DataLines(file);
    var keep: seq<KeepItem>;
    if file.columnsToKeep.Some? {
      keep := file.columnsToKeep.value;
    } else if file.multipleColumnsToKeep.Some? {
      keep := file.multipleColumnsToKeep.value;
    } else {
      return Err(KeyError("multiple_columns_to_keep"));
    }
    var found := GetRowIndices(headers, keep);
    if found.Err? {
      return Err(found.error);
    }
    RowIndicesMeaning(headers, keep);
    r := StoreRows(info, headers, found.value, joinKey, data);
  }

  /** generate_row_info over in-memory files, proved to compute LoadFiles. */
  method GenerateRowInfo(files: seq<SourceFile>, joinKey: string) returns (r: Result<RowInfo>)
    ensures r == LoadFiles(Empty(), files, joinKey)
  {
    var info: RowInfo := Empty();
    var f := 0;
    while f < |files|
      invariant 0 <= f <= |files|
      invariant LoadFiles(info, files[f..], joinKey) == LoadFiles(Empty(), files, joinKey)
    {
      assert files[f..][1..] == files[f + 1..];
      var next := LoadOneFile(info, files[f], joinKey);
      if next.Err? {
        return Err(next.error);
      }
      info := next.value;
      f := f + 1;
    }
    r := Ok(info);
  }

  /** A row the fold can store: it has the join column and every kept column. */
  predicate Fits(headers: seq<string>, indices: seq<nat>, joinKey: string, row: seq<string>) {
    && joinKey in headers
    && IndexOf(headers, joinKey) < |row|
    && forall p :: 0 <= p < |indices| ==> indices[p] < |row|
  }

  /** The join-column value a fitting row is stored under. */
  function RowKey(headers: seq<string>, joinKey: string, row: seq<string>): string {
    if joinKey in headers && IndexOf(headers, joinKey) < |row| then row[IndexOf(headers, joinKey)] else ""
  }

  lemma WrittenCons(headers: seq<string>, indices: seq<nat>)
    requires |indices| > 0
    requires forall p :: 0 <= p < |indices| ==> indices[p] < |headers|
    ensures Written(headers, indices) == [headers[indices[0]]] + Written(headers, indices[1..])
  {
  }

  /** Storing a row's cells fails, with IndexError, iff the row is too short
      for some kept column. */
  lemma {:induction false} StoreCellsSucceeds(cur: Row, headers: seq<string>, indices: seq<nat>, row: seq<string>)
    requires forall p :: 0 <= p < |indices| ==> indices[p] < |headers|
    ensures StoreCells(cur, headers, indices, row).Ok? <==> forall p :: 0 <= p < |indices| ==> indices[p] < |row|
    ensures StoreCells(cur, headers, indices, row).Err? ==> StoreCells(cur, headers, indices, row).error == IndexError
    decreases |indices|
  {
    if indices != [] && indices[0] < |row| {
      var tail := indices[1..];
      StoreCellsSucceeds(Put(cur, headers[indices[0]], row[indices[0]]), headers, tail, row);
      assert forall p :: 0 < p < |indices| ==> indices[p] == tail[p - 1];
    }
  }

  /** The stored record has the record's old columns and the kept ones, and
      the old columns that are not kept keep their values. */
  lemma {:induction false} StoreCellsFrame(cur: Row, headers: seq<string>, indices: seq<nat>, row: seq<string>)
    requires forall p :: 0 <= p < |indices| ==> indices[p] < |headers|
    requires StoreCells(cur, headers, indices, row).Ok?
    ensures var r := StoreCells(cur, headers, indices, row).value;
      && (forall c :: c in r.vals <==> c in cur.vals || c in Written(headers, indices))
      && (forall c :: c in cur.vals && c !in Written(headers, indices) ==> r.vals[c] == cur.vals[c])
    decreases |indices|
  {
    if indices != [] {
      var next := Put(cur, headers[indices[0]], row[indices[0]]);
      StoreCellsFrame(next, headers, indices[1..], row);
      WrittenCons(headers, indices);
    }
  }

  /** Every kept column of the stored record holds this row's cell. */
  lemma {:induction false} StoreCellsWrites(cur: Row, headers: seq<string>, indices: seq<nat>, row: seq<string>)
    requires forall p :: 0 <= p < |indices| ==> indices[p] < |headers| && indices[p] < |row|
    requires NamesDistinct(headers, indices)
    ensures StoreCells(cur, headers, indices, row).Ok?
    ensures var r := StoreCells(cur, headers, indices, row).value;
      forall p :: 0 <= p < |indices| ==> headers[indices[p]] in r.vals && r.vals[headers[indices[p]]] == row[indices[p]]
    decreases |indices|
  {
    StoreCellsSucceeds(cur, headers, indices, row);
    if indices != [] {
      var name := headers[indices[0]];
      var next := Put(cur, name, row[indices[0]]);
      var tail := indices[1..];
      assert forall q :: 0 <= q < |tail| ==> tail[q] == indices[q + 1];
      StoreCellsWrites(next, headers, tail, row);
      StoreCellsFrame(next, headers, tail, row);
      var r := StoreCells(cur, headers, indices, row).value;
      assert r == StoreCells(next, headers, tail, row).value;
      forall p | 0 <= p < |indices|
        ensures headers[indices[p]] in r.vals && r.vals[headers[indices[p]]] == row[indices[p]]
      {
        if p > 0 {
          assert indices[p] == tail[p - 1];
        } else if name in Written(headers, tail) {
          var q :| 0 <= q < |tail| && Written(headers, tail)[q] == name;
          assert headers[indices[q + 1]] == headers[indices[0]];
        }
      }
    }
  }

  /** One row's cells overwrite the kept columns of its record: the record
      gains exactly the kept names, each holding this row's cell, and keeps
      every other column; the fold succeeds iff the row is long enough. */
  lemma StoreCellsOverwrites(cur: Row, headers: seq<string>, indices: seq<nat>, row: seq<string>)
    requires forall p :: 0 <= p < |indices| ==> indices[p] < |headers|
    requires NamesDistinct(headers, indices)
    ensures StoreCells(cur, headers, indices, row).Ok? <==> forall p :: 0 <= p < |indices| ==> indices[p] < |row|
    ensures StoreCells(cur, headers, indices, row).Ok? ==>
      var r := StoreCells(cur, headers, indices, row).value;
      && (forall c :: c in r.vals <==> c in cur.vals || c in Written(headers, indices))
      && (forall c :: c in cur.vals && c !in Written(headers, indices) ==> r.vals[c] == cur.vals[c])
      && (forall p :: 0 <= p < |indices| ==> headers[indices[p]] in r.vals && r.vals[headers[indices[p]]] == row[indices[p]])
  {
    StoreCellsSucceeds(cur, headers, indices, row);
    if StoreCells(cur, headers, indices, row).Ok? {
      StoreCellsFrame(cur, headers, indices, row);
      StoreCellsWrites(cur, headers, indices, row);
    }
  }

  lemma FoldRowSucceeds(info: RowInfo, headers: seq<string>, indices: seq<nat>, joinKey: string, row: seq<string>)
    requires forall p :: 0 <= p < |indices| ==> indices[p] < |headers|
    requires NamesDistinct(headers, indices)
    ensures FoldRow(info, headers, indices, joinKey, row).Ok? <==> Fits(headers, indices, joinKey, row)
  {
    if joinKey in headers && IndexOf(headers, joinKey) < |row| {
      StoreCellsOverwrites(GetCurrentRow(info, RowKey(headers, joinKey, row)), headers, indices, row);
    }
  }

  /** The rows of a file fold without error iff every row has the join
      column and every kept column. */
  lemma {:induction false} FoldRowsSucceeds(info: RowInfo, headers: seq<string>, indices: seq<nat>, joinKey: string, rows: seq<seq<string>>)
    requires forall p :: 0 <= p < |indices| ==> indices[p] < |headers|
    requires NamesDistinct(headers, indices)
    ensures FoldRows(info, headers, indices, joinKey, rows).Ok? <==>
      forall i :: 0 <= i < |rows| ==> Fits(headers, indices, joinKey, rows[i])
    decreases |rows|
  {
    if rows != [] {
      var first := FoldRow(info, headers, indices, joinKey, rows[0]);
      FoldRowSucceeds(info, headers, indices, joinKey, rows[0]);
      var tail := rows[1..];
      if first.Ok? {
        FoldRowsSucceeds(first.value, headers, indices, joinKey, tail);
        assert FoldRows(info, headers, indices, joinKey, rows) == FoldRows(first.value, headers, indices, joinKey, tail);
      }
      assert forall i :: 0 < i < |rows| ==> rows[i] == tail[i - 1];
    }
  }

  /** A key that no row of the file carries keeps its record, or its absence. */
  lemma {:induction false} FoldRowsUntouched(info: RowInfo, headers: seq<string>, indices: seq<nat>, joinKey: string, rows: seq<seq<string>>, key: string)
    requires forall p :: 0 <= p < |indices| ==> indices[p] < |headers|
    requires forall i :: 0 <= i < |rows| ==> RowKey(headers, joinKey, rows[i]) != key
    requires FoldRows(info, headers, indices, joinKey, rows).Ok?
    ensures var out := FoldRows(info, headers, indices, joinKey, rows).value;
      && (key in out.vals <==> key in info.vals)
      && (key in info.vals ==> out.vals[key] == info.vals[key])
    decreases |rows|
  {
    if rows != [] {
      var info' := FoldRow(info, headers, indices, joinKey, rows[0]).value;
      assert forall i :: 0 <= i < |rows[1..]| ==> rows[1..][i] == rows[i + 1];
      FoldRowsUntouched(info', headers, indices, joinKey, rows[1..], key);
    }
  }

  /** Last write wins: after the last row carrying a key, every kept column
      of that key's record holds that row's cell. */
  lemma {:induction false} FoldRowsLastWriteWins(info: RowInfo, headers: seq<string>, indices: seq<nat>, joinKey: string, rows: seq<seq<string>>, i: nat, p: nat)
    requires forall q :: 0 <= q < |indices| ==> indices[q] < |headers|
    requires NamesDistinct(headers, indices)
    requires FoldRows(info, headers, indices, joinKey, rows).Ok?
    requires i < |rows| && p < |indices|
    requires forall l :: i < l < |rows| ==> RowKey(headers, joinKey, rows[l]) != RowKey(headers, joinKey, rows[i])
    ensures var out := FoldRows(info, headers, indices, joinKey, rows).value;
      var key := RowKey(headers, joinKey, rows[i]);
      && Fits(headers, indices, joinKey, rows[i])
      && key in out.vals
      && headers[indices[p]] in out.vals[key].vals
      && out.vals[key].vals[headers[indices[p]]] == rows[i][indices[p]]
    decreases |rows|
  {
    var row := rows[0];
    var first := FoldRow(info, headers, indices, joinKey, row);
    assert first.Ok?;
    var info' := first.value;
    var tail := rows[1..];
    assert FoldRows(info, headers, indices, joinKey, rows) == FoldRows(info', headers, indices, joinKey, tail);
    if i == 0 {
      FoldRowSucceeds(info, headers, indices, joinKey, row);
      var key := RowKey(headers, joinKey, row);
      StoreCellsOverwrites(GetCurrentRow(info, key), headers, indices, row);
      forall l | 0 <= l < |tail|
        ensures RowKey(headers, joinKey, tail[l]) != key
      {
        assert tail[l] == rows[l + 1];
      }
      FoldRowsUntouched(info', headers, indices, joinKey, tail, key);
    } else {
      assert rows[i] == tail[i - 1];
      forall l | i - 1 < l < |tail|
        ensures RowKey(headers, joinKey, tail[l]) != RowKey(headers, joinKey, tail[i - 1])
      {
        assert tail[l] == rows[l + 1];
      }
      FoldRowsLastWriteWins(info', headers, indices, joinKey, tail, i - 1, p);
    }
  }

  /** One row leaves a column of a stored record alone when the row is
      stored under another key or does not keep that column. */
  lemma FoldRowKeepsColumn(info: RowInfo, headers: seq<string>, indices: seq<nat>, joinKey: string, row: seq<string>, key: string, c: string)
    requires forall p :: 0 <= p < |indices| ==> indices[p] < |headers|
    requires FoldRow(info, headers, indices, joinKey, row).Ok?
    requires key in info.vals && c in info.vals[key].vals
    requires c !in Written(headers, indices) || RowKey(headers, joinKey, row) != key
    ensures var out := FoldRow(info, headers, indices, joinKey, row).value;
      key in out.vals && c in out.vals[key].vals && out.vals[key].vals[c] == info.vals[key].vals[c]
  {
    if RowKey(headers, joinKey, row) == key {
      StoreCellsFrame(info.vals[key], headers, indices, row);
    }
  }

  /** A file whose kept columns do not include c leaves column c of every
      stored record alone. */
  lemma {:induction false} FoldRowsKeepsColumn(info: RowInfo, headers: seq<string>, indices: seq<nat>, joinKey: string, rows: seq<seq<string>>, key: string, c: string)
    requires forall p :: 0 <= p < |indices| ==> indices[p] < |headers|
    requires FoldRows(info, headers, indices, joinKey, rows).Ok?
    requires key in info.vals && c in info.vals[key].vals
    requires c !in Written(headers, indices)
    ensures var out := FoldRows(info, headers, indices, joinKey, rows).value;
      key in out.vals && c in out.vals[key].vals && out.vals[key].vals[c] == info.vals[key].vals[c]
    decreases |rows|
  {
    if rows != [] {
      FoldRowKeepsColumn(info, headers, indices, joinKey, rows[0], key, c);
      var info' := FoldRow(info, headers, indices, joinKey, rows[0]).value;
      FoldRowsKeepsColumn(info', headers, indices, joinKey, rows[1..], key, c);
    }
  }

  /** The stripped header line of a non-empty file. */
  function FileHeaders(file: SourceFile): seq<string>
    requires |file.lines| > 0
  {
    Headers(file.lines[0])
  }

  /** Some data line of the file is stored under key. */
  ghost predicate Carries(file: SourceFile, joinKey: string, key: string) {
    |file.lines| > 0 && exists row :: row in DataLines(file) && RowKey(FileHeaders(file), joinKey, row) == key
  }

  /** The file's columns to keep include c. */
  ghost predicate Keeps(file: SourceFile, c: string) {
    KeepList(file).Ok? && c in Flatten(KeepList(file).value)
  }

  /** A file that does not both carry key and keep c leaves column c of the
      record under key alone. */
  lemma LoadFileKeeps(info: RowInfo, file: SourceFile, joinKey: string, key: string, c: string)
    requires LoadFile(info, file, joinKey).Ok?
    requires key in info.vals && c in info.vals[key].vals
    requires !(Carries(file, joinKey, key) && Keeps(file, c))
    ensures var out := LoadFile(info, file, joinKey).value;
      key in out.vals && c in out.vals[key].vals && out.vals[key].vals[c] == info.vals[key].vals[c]
  {
    var headers := FileHeaders(file);
    var keep := KeepList(file).value;
    RowIndicesMeaning(headers, keep);
    var indices := RowIndices(headers, keep).value;
    var rows := DataLines(file);
    if Keeps(file, c) {
      forall i | 0 <= i < |rows|
        ensures RowKey(headers, joinKey, rows[i]) != key
      {
        assert rows[i] in rows;
      }
      FoldRowsUntouched(info, headers, indices, joinKey, rows, key);
    } else {
      assert forall p :: 0 <= p < |indices| ==> Written(headers, indices)[p] == Flatten(keep)[p];
      FoldRowsKeepsColumn(info, headers, indices, joinKey, rows, key, c);
    }
  }

  /** Within one file the last data line stored under a key wins: each
      column the file keeps holds that line's cell of the column. */
  lemma LoadFileLastWins(info: RowInfo, file: SourceFile, joinKey: string, i: nat, c: string)
    requires LoadFile(info, file, joinKey).Ok?
    requires |file.lines| > 0 && i < |DataLines(file)| && Keeps(file, c)
    requires var rows := DataLines(file);
      forall l :: i < l < |rows| ==> RowKey(FileHeaders(file), joinKey, rows[l]) != RowKey(FileHeaders(file), joinKey, rows[i])
    ensures var out := LoadFile(info, file, joinKey).value;
      var headers := FileHeaders(file);
      var row := DataLines(file)[i];
      var key := RowKey(headers, joinKey, row);
      && c in headers && IndexOf(headers, c) < |row|
      && key in out.vals && c in out.vals[key].vals
      && out.vals[key].vals[c] == row[IndexOf(headers, c)]
  {
    var headers := FileHeaders(file);
    var keep := KeepList(file).value;
    RowIndicesMeaning(headers, keep);
    var indices := RowIndices(headers, keep).value;
    var p :| 0 <= p < |Flatten(keep)| && Flatten(keep)[p] == c;
    FoldRowsLastWriteWins(info, headers, indices, joinKey, DataLines(file), i, p);
  }

  /** Across the sources, a column of a stored record survives every later
      file that does not both carry its key and keep the column. */
  lemma {:induction false} LoadFilesKeeps(info: RowInfo, files: seq<SourceFile>, joinKey: string, key: string, c: string)
    requires LoadFiles(info, files, joinKey).Ok?
    requires key in info.vals && c in info.vals[key].vals
    requires forall f :: 0 <= f < |files| ==> !(Carries(files[f], joinKey, key) && Keeps(files[f], c))
    ensures var out := LoadFiles(info, files, joinKey).value;
      key in out.vals && c in out.vals[key].vals && out.vals[key].vals[c] == info.vals[key].vals[c]
    decreases |files|
  {
    if files != [] {
      LoadFileKeeps(info, files[0], joinKey, key, c);
      var info' := LoadFile(info, files[0], joinKey).value;
      assert forall f :: 0 <= f < |files[1..]| ==> files[1..][f] == files[f + 1];
      LoadFilesKeeps(info', files[1..], joinKey, key, c);
    }
  }

  /** Last write wins across the sources: the column c of the record under
      a key holds the cell of the last data line with that key in the last
      file that carries the key and keeps c. */
  lemma {:induction false} LoadFilesLastWins(info: RowInfo, files: seq<SourceFile>, joinKey: string, f: nat, i: nat, c: string)
    requires LoadFiles(info, files, joinKey).Ok?
    requires f < |files| && |files[f].lines| > 0 && i < |DataLines(files[f])| && Keeps(files[f], c)
    requires var rows := DataLines(files[f]);
      forall l :: i < l < |rows| ==> RowKey(FileHeaders(files[f]), joinKey, rows[l]) != RowKey(FileHeaders(files[f]), joinKey, rows[i])
    requires var key := RowKey(FileHeaders(files[f]), joinKey, DataLines(files[f])[i]);
      forall g :: f < g < |files| ==> !(Carries(files[g], joinKey, key) && Keeps(files[g], c))
    ensures var out := LoadFiles(info, files, joinKey).value;
      var headers := FileHeaders(files[f]);
      var row := DataLines(files[f])[i];
      var key := RowKey(headers, joinKey, row);
      && c in headers && IndexOf(headers, c) < |row|
      && key in out.vals && c in out.vals[key].vals
      && out.vals[key].vals[c] == row[IndexOf(headers, c)]
    decreases |files|
  {
    var info' := LoadFile(info, files[0], joinKey).value;
    var rest := files[1..];
    assert forall g :: 0 <= g < |rest| ==> rest[g] == files[g + 1];
    if f == 0 {
      LoadFileLastWins(info, files[0], joinKey, i, c);
      LoadFilesKeeps(info', rest, joinKey, RowKey(FileHeaders(files[0]), joinKey, DataLines(files[0])[i]), c);
    } else {
      LoadFilesLastWins(info', rest, joinKey, f - 1, i, c);
    }
  }

  /** One file succeeds iff it has a header line, names its columns to
      keep, every kept name is a header, and every data line has the join
      column and every kept column; each failure raises its own error. */
  lemma LoadFileSucceeds(info: RowInfo, file: SourceFile, joinKey: string)
    ensures |file.lines| == 0 ==> LoadFile(info, file, joinKey) == Err(TypeError)
    ensures |file.lines| > 0 && KeepList(file).Err? ==>
      LoadFile(info, file, joinKey) == Err(KeyError("multiple_columns_to_keep"))
    ensures |file.lines| > 0 && KeepList(file).Ok? && !AllIn(Flatten(KeepList(file).value), FileHeaders(file)) ==>
      LoadFile(info, file, joinKey) == Err(ValueError(FirstMissing(FileHeaders(file), Flatten(KeepList(file).value))))
    ensures LoadFile(info, file, joinKey).Ok? <==>
      && |file.lines| > 0 && KeepList(file).Ok?
      && AllIn(Flatten(KeepList(file).value), FileHeaders(file))
      && var indices := Positions(FileHeaders(file), Flatten(KeepList(file).value));
         forall i :: 0 <= i < |DataLines(file)| ==> Fits(FileHeaders(file), indices, joinKey, DataLines(file)[i])
  {
    if |file.lines| > 0 && KeepList(file).Ok? {
      var headers := FileHeaders(file);
      var keep := KeepList(file).value;
      RowIndicesMeaning(headers, keep);
      if AllIn(Flatten(keep), headers) {
        FoldRowsSucceeds(info, headers, RowIndices(headers, keep).value, joinKey, DataLines(file));
      }
    }
  }

  /** A key that no file carries keeps its record, or stays absent. */
  lemma {:induction false} LoadFilesUntouched(info: RowInfo, files: seq<SourceFile>, joinKey: string, key: string)
    requires LoadFiles(info, files, joinKey).Ok?
    requires forall f :: 0 <= f < |files| ==> !Carries(files[f], joinKey, key)
    ensures var out := LoadFiles(info, files, joinKey).value;
      && (key in out.vals <==> key in info.vals)
      && (key in info.vals ==> out.vals[key] == info.vals[key])
    decreases |files|
  {
    if files != [] {
      var file := files[0];
      var headers := FileHeaders(file);
      var keep := KeepList(file).value;
      RowIndicesMeaning(headers, keep);
      var rows := DataLines(file);
      forall i | 0 <= i < |rows|
        ensures RowKey(headers, joinKey, rows[i]) != key
      {
        assert rows[i] in rows;
      }
      FoldRowsUntouched(info, headers, RowIndices(headers, keep).value, joinKey, rows, key);
      var info' := LoadFile(info, file, joinKey).value;
      assert forall f :: 0 <= f < |files[1..]| ==> files[1..][f] == files[f + 1];
      LoadFilesUntouched(info', files[1..], joinKey, key);
    }
  }
}
