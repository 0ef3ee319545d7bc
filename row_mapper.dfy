/** The mapper of csv_fhirify.py: consolidated records renamed to target
    fields, either one output row per record or one output row per value
    column that holds a value. */
module RowMapper {
  import opened Outcomes
  import opened Dicts
  import opened Text
  import opened RowLoader

  /** target_mappings: each target field with the source columns, in order
      of preference, that may fill it. */
  type Mapping = ODict<seq<string>>

  /** The stripped cells that count as "no value" when a field has several
      candidate columns. */
  const NoneValues: seq<string> := ["None", "NA", "N/A", "?", "#VALUE!"]

  /** The same for value and date columns of the multi-row mode, which also
      treats the empty cell as no value. */
  const NoneValuesMulti: seq<string> := NoneValues + [""]

  /** The column exists in the row and its stripped cell is a value. */
  predicate Qualifies(row: Row, column: string, none: seq<string>) {
    column in row.vals && Strip(row.vals[column]) !in none
  }

  /** The stripped cell of the first listed column that qualifies. */
  function FirstQualifying(row: Row, columns: seq<string>, none: seq<string>): (r: Option<string>)
    ensures r.None? <==> forall i :: 0 <= i < |columns| ==> !Qualifies(row, columns[i], none)
    ensures r.Some? ==> exists i :: 0 <= i < |columns| && Qualifies(row, columns[i], none) && r.value == Strip(row.vals[columns[i]])
  {
    if columns == [] then None
    else if Qualifies(row, columns[0], none) then Some(Strip(row.vals[columns[0]]))
    else
      var r := FirstQualifying(row, columns[1..], none);
      assert forall i :: 1 <= i < |columns| ==> columns[i] == columns[1..][i - 1];
      r
  }

  /** Of several qualifying columns the first listed one is chosen, whatever
      the later ones hold. */
  lemma {:induction false} FirstQualifyingIsFirst(row: Row, columns: seq<string>, none: seq<string>, i: nat)
    requires i < |columns| && Qualifies(row, columns[i], none)
    requires forall j :: 0 <= j < i ==> !Qualifies(row, columns[j], none)
    ensures FirstQualifying(row, columns, none) == Some(Strip(row.vals[columns[i]]))
  {
    if i > 0 {
      FirstQualifyingIsFirst(row, columns[1..], none, i - 1);
    }
  }

  /** The value transform_single_row_info gives a target field with these
      candidate columns, if any: a single candidate is taken as it is, even
      when its cell reads "NA"; of several, the first one with a value; an
      empty candidate list never sets the field. */
  function Field(row: Row, columns: seq<string>): (r: Option<string>)
    ensures |columns| == 0 ==> r == None
    ensures |columns| == 1 ==> (r.Some? <==> columns[0] in row.vals)
    ensures |columns| == 1 && r.Some? ==> r.value == Strip(row.vals[columns[0]])
    ensures |columns| > 1 ==> (r.Some? <==> exists i :: 0 <= i < |columns| && Qualifies(row, columns[i], NoneValues))
    ensures |columns| > 1 && r.Some? ==> r.value !in NoneValues
  {
    if |columns| == 1 then
      if columns[0] in row.vals then Some(Strip(row.vals[columns[0]])) else None
    else if |columns| > 1 then FirstQualifying(row, columns, NoneValues)
    else None
  }

  /** mapped[key] = value when there is a value. */
  function Apply(mapped: Row, key: string, value: Option<string>): Row {
    match value
    case None => mapped
    case Some(v) => Put(mapped, key, v)
  }

  /** The mapped row built from the target fields mapping.keys[i..] onto acc. */
  function MapFrom(row: Row, mapping: Mapping, i: nat, acc: Row): Row
    requires i <= |mapping.keys|
    decreases |mapping.keys| - i
  {
    if i == |mapping.keys| then acc
    else
      var key := mapping.keys[i];
      MapFrom(row, mapping, i + 1, Apply(acc, key, Field(row, mapping.vals[key])))
  }

  /** What transform_single_row_info returns. */
  function MapRow(row: Row, mapping: Mapping): Row {
    MapFrom(row, mapping, 0, Empty())
  }

  /** A target field of mapping.keys[i..] that the row gives a value. */
  ghost predicate Filled(row: Row, mapping: Mapping, i: nat, key: string)
    requires i <= |mapping.keys|
  {
    key in mapping.keys[i..] && Field(row, mapping.vals[key]).Some?
  }

  lemma {:induction false} MapFromMeaning(row: Row, mapping: Mapping, i: nat, acc: Row, key: string)
    requires i <= |mapping.keys|
    ensures key in MapFrom(row, mapping, i, acc).vals <==> key in acc.vals || Filled(row, mapping, i, key)
    ensures key in MapFrom(row, mapping, i, acc).vals ==>
      MapFrom(row, mapping, i, acc).vals[key] ==
        if Filled(row, mapping, i, key) then Field(row, mapping.vals[key]).value else acc.vals[key]
    decreases |mapping.keys| - i
  {
    if i < |mapping.keys| {
      var k := mapping.keys[i];
      var next := Apply(acc, k, Field(row, mapping.vals[k]));
      MapFromMeaning(row, mapping, i + 1, next, key);
      assert mapping.keys[i..] == [k] + mapping.keys[i + 1..];
      assert k !in mapping.keys[i + 1..];
    }
  }

  /** transform_single_row_info sets exactly the target fields whose
      candidates give a value, each to that value, and nothing else. */
  lemma MapRowMeaning(row: Row, mapping: Mapping, key: string)
    ensures key in MapRow(row, mapping).vals <==> key in mapping.vals && Field(row, mapping.vals[key]).Some?
    ensures key in MapRow(row, mapping).vals ==> MapRow(row, mapping).vals[key] == Field(row, mapping.vals[key]).value
  {
    MapFromMeaning(row, mapping, 0, Empty(), key);
    assert mapping.keys[0..] == mapping.keys;
  }

  lemma FirstQualifyingStep(row: Row, columns: seq<string>, none: seq<string>, i: nat)
    requires i < |columns|
    ensures FirstQualifying(row, columns[i..], none) ==
      if Qualifies(row, columns[i], none) then Some(Strip(row.vals[columns[i]]))
      else FirstQualifying(row, columns[i + 1..], none)
  {
    assert columns[i..][1..] == columns[i + 1..];
  }

  /** Writing a field again replaces the earlier value and keeps its place. */
  lemma ApplyTwice(mapped: Row, key: string, earlier: Option<string>, v: string)
    ensures Put(Apply(mapped, key, earlier), key, v) == Put(mapped, key, v)
  {
  }

  /** One target field of transform_single_row_info: a single candidate is
      copied; several are scanned from the last to the first, each one with a
      value overwriting the field, so the first listed one is left. */
  method MapField(row: Row, key: string, columns: seq<string>, mapped: Row) returns (r: Row)
    ensures r == Apply(mapped, key, Field(row, columns))
  {
    r := mapped;
    if |columns| == 1 && columns[0] in row.vals {
      r := Put(r, key, Strip(row.vals[columns[0]]));
    } else if |columns| > 1 {
      var i := |columns|;
      while i > 0
        invariant 0 <= i <= |columns|
        invariant r == Apply(mapped, key, FirstQualifying(row, columns[i..], NoneValues))
      {
        i := i - 1;
        FirstQualifyingStep(row, columns, NoneValues, i);
        if columns[i] in row.vals && Strip(row.vals[columns[i]]) !in NoneValues {
          ApplyTwice(mapped, key, FirstQualifying(row, columns[i + 1..], NoneValues), Strip(row.vals[columns[i]]));
          r := Put(r, key, Strip(row.vals[columns[i]]));
        }
      }
      assert columns[0..] == columns;
    }
  }

  /** transform_single_row_info, proved to compute MapRow. */
  method TransformSingleRowInfo(row: Row, mapping: Mapping) returns (mapped: Row)
    ensures mapped == MapRow(row, mapping)
  {
    mapped := Empty();
    for i := 0 to |mapping.keys|
      invariant MapFrom(row, mapping, i, mapped) == MapRow(row, mapping)
    {
      var key := mapping.keys[i];
      mapped := MapField(row, key, mapping.vals[key], mapped);
    }
  }

  /** The date cell of a multi-row output row: the cell as it stands, when
      the date column exists and its stripped cell is a value. */
  function DateCell(row: Row, dateColumn: string): (r: Option<string>)
    ensures r.Some? <==> Qualifies(row, dateColumn, NoneValuesMulti)
    ensures r.Some? ==> r.value == row.vals[dateColumn]
  {
    if Qualifies(row, dateColumn, NoneValuesMulti) then Some(row.vals[dateColumn]) else None
  }

  /** One output row of transform_multi_row_info: the mapped row base, then
      the value, the value column's name and its type, and the date if any. */
  function MultiRecord(base: Row, value: string, valueColumn: string, valueType: string, date: Option<string>): Row {
    Apply(Put(Put(Put(base, "VALUE", value), "VALUE_CODE", valueColumn), "VALUE_TYPE", valueType), "VALUE_DATE", date)
  }

  /** The fields of a multi-row output row, as a mapping. */
  lemma MultiRecordVals(base: Row, value: string, valueColumn: string, valueType: string, date: Option<string>)
    ensures var m := base.vals["VALUE" := value]["VALUE_CODE" := valueColumn]["VALUE_TYPE" := valueType];
      MultiRecord(base, value, valueColumn, valueType, date).vals == if date.Some? then m["VALUE_DATE" := date.value] else m
  {
    var r3 := Put(Put(Put(base, "VALUE", value), "VALUE_CODE", valueColumn), "VALUE_TYPE", valueType);
    assert r3.vals == base.vals["VALUE" := value]["VALUE_CODE" := valueColumn]["VALUE_TYPE" := valueType];
  }

  /** Each multi-row output row holds the value, the value column's name and
      type, and the date when there is one. */
  lemma MultiRecordValue(base: Row, value: string, valueColumn: string, valueType: string, date: Option<string>)
    ensures var r := MultiRecord(base, value, valueColumn, valueType, date);
      && "VALUE" in r.vals && r.vals["VALUE"] == value
      && "VALUE_CODE" in r.vals && r.vals["VALUE_CODE"] == valueColumn
      && "VALUE_TYPE" in r.vals && r.vals["VALUE_TYPE"] == valueType
      && (date.Some? ==> "VALUE_DATE" in r.vals && r.vals["VALUE_DATE"] == date.value)
  {
    MultiRecordVals(base, value, valueColumn, valueType, date);
    AddedKeys(base.vals, value, valueColumn, valueType, date);
  }

  /** The four fields set last hold what was set. */
  lemma AddedKeys(b: map<string, string>, value: string, valueColumn: string, valueType: string, date: Option<string>)
    ensures var m := b["VALUE" := value]["VALUE_CODE" := valueColumn]["VALUE_TYPE" := valueType];
      var m' := if date.Some? then m["VALUE_DATE" := date.value] else m;
      && "VALUE" in m' && m'["VALUE"] == value
      && "VALUE_CODE" in m' && m'["VALUE_CODE"] == valueColumn
      && "VALUE_TYPE" in m' && m'["VALUE_TYPE"] == valueType
      && (date.Some? ==> "VALUE_DATE" in m' && m'["VALUE_DATE"] == date.value)
  {
  }

  /** Its other fields are those of the single-row mapping base. */
  lemma MultiRecordKeeps(base: Row, value: string, valueColumn: string, valueType: string, date: Option<string>, k: string)
    requires k != "VALUE" && k != "VALUE_CODE" && k != "VALUE_TYPE" && k != "VALUE_DATE"
    ensures var r := MultiRecord(base, value, valueColumn, valueType, date);
      (k in r.vals <==> k in base.vals) && (k in r.vals ==> r.vals[k] == base.vals[k])
  {
    MultiRecordVals(base, value, valueColumn, valueType, date);
    OtherKey(base.vals, value, valueColumn, valueType, date, k);
  }

  /** A key other than the four set last keeps its value, or its absence. */
  lemma OtherKey(b: map<string, string>, value: string, valueColumn: string, valueType: string, date: Option<string>, k: string)
    requires k != "VALUE" && k != "VALUE_CODE" && k != "VALUE_TYPE" && k != "VALUE_DATE"
    ensures var m := b["VALUE" := value]["VALUE_CODE" := valueColumn]["VALUE_TYPE" := valueType];
      var m' := if date.Some? then m["VALUE_DATE" := date.value] else m;
      (k in m' <==> k in b) && (k in m' ==> m'[k] == b[k])
  {
  }

  /** The length of zip over the three lists. */
  function ZipLength(values: seq<string>, types: seq<string>, dates: seq<string>): (n: nat)
    ensures n <= |values| && n <= |types| && n <= |dates|
    ensures n == |values| || n == |types| || n == |dates|
  {
    if |values| <= |types| && |values| <= |dates| then |values|
    else if |types| <= |dates| then |types|
    else |dates|
  }

  /** The output row for zipped position i. */
  function RecordAt(row: Row, base: Row, values: seq<string>, types: seq<string>, dates: seq<string>, i: nat): Row
    requires i < ZipLength(values, types, dates) && values[i] in row.vals
  {
    MultiRecord(base, Strip(row.vals[values[i]]), values[i], types[i], DateCell(row, dates[i]))
  }

  /** Which zipped positions have a value column with a value. */
  function Flags(row: Row, values: seq<string>, types: seq<string>, dates: seq<string>): (r: seq<bool>)
    ensures |r| == ZipLength(values, types, dates)
    ensures forall j :: 0 <= j < |r| ==> r[j] == Qualifies(row, values[j], NoneValuesMulti)
  {
    var n := ZipLength(values, types, dates);
    seq(n, j requires 0 <= j < n => Qualifies(row, values[j], NoneValuesMulti))
  }

  /** The output row of each zipped position (base where there is none). */
  function Records(row: Row, base: Row, values: seq<string>, types: seq<string>, dates: seq<string>): (r: seq<Row>)
    ensures |r| == ZipLength(values, types, dates)
    ensures forall j :: 0 <= j < |r| && values[j] in row.vals ==> r[j] == RecordAt(row, base, values, types, dates, j)
    ensures forall j :: 0 <= j < |r| && values[j] !in row.vals ==> r[j] == base
  {
    var n := ZipLength(values, types, dates);
    seq(n, j requires 0 <= j < n => if values[j] in row.vals then RecordAt(row, base, values, types, dates, j) else base)
  }

  /** The items whose flag is set, in order. */
  function Keep(flags: seq<bool>, items: seq<Row>): seq<Row>
    requires |flags| == |items|
  {
    if items == [] then []
    else
      var n := |items| - 1;
      Keep(flags[..n], items[..n]) + (if flags[n] then [items[n]] else [])
  }

  /** The number of set flags. */
  function Count(flags: seq<bool>): nat {
    if flags == [] then 0
    else Count(flags[..|flags| - 1]) + (if flags[|flags| - 1] then 1 else 0)
  }

  lemma {:induction false} KeepLength(flags: seq<bool>, items: seq<Row>)
    requires |flags| == |items|
    ensures |Keep(flags, items)| == Count(flags)
  {
    if items != [] {
      var n := |items| - 1;
      KeepLength(flags[..n], items[..n]);
    }
  }

  lemma {:induction false} KeepMeaning(flags: seq<bool>, items: seq<Row>, x: Row)
    requires |flags| == |items|
    ensures x in Keep(flags, items) <==> exists j :: 0 <= j < |items| && flags[j] && items[j] == x
  {
    if items != [] {
      var n := |items| - 1;
      KeepMeaning(flags[..n], items[..n], x);
      if exists j :: 0 <= j < |items| && flags[j] && items[j] == x {
        var j :| 0 <= j < |items| && flags[j] && items[j] == x;
        if j < n {
          assert flags[..n][j] && items[..n][j] == x;
        }
      }
    }
  }

  /** Keeping among one more item: the kept items so far, then that item
      when its flag is set. */
  lemma KeepSnoc(flags: seq<bool>, items: seq<Row>, n: nat)
    requires |flags| == |items| && n < |items|
    ensures Keep(flags[..n + 1], items[..n + 1]) == Keep(flags[..n], items[..n]) + (if flags[n] then [items[n]] else [])
  {
    assert flags[..n + 1][..n] == flags[..n] && items[..n + 1][..n] == items[..n];
  }

  /** What transform_multi_row_info returns. */
  function MultiRows(row: Row, mapping: Mapping, values: seq<string>, types: seq<string>, dates: seq<string>): seq<Row> {
    Keep(Flags(row, values, types, dates), Records(row, MapRow(row, mapping), values, types, dates))
  }

  /** Zipped position j has a value column with a value, and x is its output row. */
  ghost predicate Produces(row: Row, base: Row, values: seq<string>, types: seq<string>, dates: seq<string>, j: nat, x: Row) {
    && j < ZipLength(values, types, dates)
    && Qualifies(row, values[j], NoneValuesMulti)
    && x == RecordAt(row, base, values, types, dates, j)
  }

  /** transform_multi_row_info returns one row per zipped position whose
      value column holds a value. */
  lemma MultiRowsLength(row: Row, mapping: Mapping, values: seq<string>, types: seq<string>, dates: seq<string>)
    ensures |MultiRows(row, mapping, values, types, dates)| == Count(Flags(row, values, types, dates))
    ensures |MultiRows(row, mapping, values, types, dates)| <= ZipLength(values, types, dates)
  {
    var flags := Flags(row, values, types, dates);
    KeepLength(flags, Records(row, MapRow(row, mapping), values, types, dates));
    CountBound(flags);
  }

  lemma {:induction false} CountBound(flags: seq<bool>)
    ensures Count(flags) <= |flags|
  {
    if flags != [] {
      CountBound(flags[..|flags| - 1]);
    }
  }

  /** The flags of the first m zipped positions. */
  lemma FlagsPrefix(row: Row, values: seq<string>, types: seq<string>, dates: seq<string>, m: nat)
    requires m <= ZipLength(values, types, dates)
    ensures Flags(row, values[..m], types[..m], dates[..m]) == Flags(row, values, types, dates)[..m]
  {
    assert ZipLength(values[..m], types[..m], dates[..m]) == m;
  }

  /** The output rows of the first m zipped positions. */
  lemma RecordsPrefix(row: Row, base: Row, values: seq<string>, types: seq<string>, dates: seq<string>, m: nat)
    requires m <= ZipLength(values, types, dates)
    ensures Records(row, base, values[..m], types[..m], dates[..m]) == Records(row, base, values, types, dates)[..m]
  {
    assert ZipLength(values[..m], types[..m], dates[..m]) == m;
    var r := Records(row, base, values, types, dates);
    var r' := Records(row, base, values[..m], types[..m], dates[..m]);
    forall j | 0 <= j < m
      ensures r'[j] == r[j]
    {
      if values[j] in row.vals {
        RecordAtSame(row, base, values, types, dates, m, j);
      }
    }
  }

  lemma RecordAtSame(row: Row, base: Row, values: seq<string>, types: seq<string>, dates: seq<string>, m: nat, j: nat)
    requires j < m <= ZipLength(values, types, dates) && values[j] in row.vals
    ensures ZipLength(values[..m], types[..m], dates[..m]) == m
    ensures RecordAt(row, base, values[..m], types[..m], dates[..m], j) == RecordAt(row, base, values, types, dates, j)
  {
    assert values[..m][j] == values[j] && types[..m][j] == types[j] && dates[..m][j] == dates[j];
  }

  /** zip stops at the shortest list: only the first ZipLength items of
      each list matter. */
  lemma MultiRowsZip(row: Row, mapping: Mapping, values: seq<string>, types: seq<string>, dates: seq<string>)
    ensures var n := ZipLength(values, types, dates);
      MultiRows(row, mapping, values, types, dates) == MultiRows(row, mapping, values[..n], types[..n], dates[..n])
  {
    var n := ZipLength(values, types, dates);
    var flags := Flags(row, values, types, dates);
    var items := Records(row, MapRow(row, mapping), values, types, dates);
    FlagsPrefix(row, values, types, dates, n);
    RecordsPrefix(row, MapRow(row, mapping), values, types, dates, n);
    assert flags[..n] == flags && items[..n] == items;
  }

  /** Over no zipped positions transform_multi_row_info returns nothing. */
  lemma MultiRowsNone(row: Row, mapping: Mapping, types: seq<string>, dates: seq<string>)
    ensures MultiRows(row, mapping, [], types, dates) == []
  {
  }

  /** The rows for the first n + 1 zipped positions are those for the first
      n, followed by the row of position n when its value column holds a
      value: one row per qualifying position, in position order. */
  lemma MultiRowsSnoc(row: Row, mapping: Mapping, values: seq<string>, types: seq<string>, dates: seq<string>, n: nat)
    requires n < ZipLength(values, types, dates)
    ensures MultiRows(row, mapping, values[..n + 1], types[..n + 1], dates[..n + 1]) ==
      MultiRows(row, mapping, values[..n], types[..n], dates[..n]) +
      (if Qualifies(row, values[n], NoneValuesMulti) then [RecordAt(row, MapRow(row, mapping), values, types, dates, n)] else [])
  {
    var base := MapRow(row, mapping);
    var flags := Flags(row, values, types, dates);
    var items := Records(row, base, values, types, dates);
    FlagsPrefix(row, values, types, dates, n);
    FlagsPrefix(row, values, types, dates, n + 1);
    RecordsPrefix(row, base, values, types, dates, n);
    RecordsPrefix(row, base, values, types, dates, n + 1);
    KeepSnoc(flags, items, n);
  }

  /** Each row it returns is the row of a zipped position whose value column
      holds a value. */
  lemma MultiRowsSound(row: Row, mapping: Mapping, values: seq<string>, types: seq<string>, dates: seq<string>, x: Row)
    requires x in MultiRows(row, mapping, values, types, dates)
    ensures exists j :: Produces(row, MapRow(row, mapping), values, types, dates, j, x)
  {
    var base := MapRow(row, mapping);
    var flags := Flags(row, values, types, dates);
    var items := Records(row, base, values, types, dates);
    KeepMeaning(flags, items, x);
    var j :| 0 <= j < |items| && flags[j] && items[j] == x;
    assert Qualifies(row, values[j], NoneValuesMulti);
    assert x == RecordAt(row, base, values, types, dates, j);
    assert Produces(row, base, values, types, dates, j, x);
  }

  /** Each zipped position whose value column holds a value gives a row. */
  lemma MultiRowsComplete(row: Row, mapping: Mapping, values: seq<string>, types: seq<string>, dates: seq<string>, j: nat)
    requires j < ZipLength(values, types, dates) && Qualifies(row, values[j], NoneValuesMulti)
    ensures RecordAt(row, MapRow(row, mapping), values, types, dates, j) in MultiRows(row, mapping, values, types, dates)
  {
    var base := MapRow(row, mapping);
    var flags := Flags(row, values, types, dates);
    var items := Records(row, base, values, types, dates);
    KeepMeaning(flags, items, items[j]);
  }

  /** transform_multi_row_info, proved to compute MultiRows. */
  method TransformMultiRowInfo(row: Row, mapping: Mapping, values: seq<string>, types: seq<string>, dates: seq<string>)
    returns (rows: seq<Row>)
    ensures rows == MultiRows(row, mapping, values, types, dates)
  {
    ghost var flags := Flags(row, values, types, dates);
    ghost var items := Records(row, MapRow(row, mapping), values, types, dates);
    rows := [];
    var n := ZipLength(values, types, dates);
    for i := 0 to n
      invariant rows == Keep(flags[..i], items[..i])
    {
      KeepSnoc(flags, items, i);
      if values[i] in row.vals && Strip(row.vals[values[i]]) !in NoneValuesMulti {
        var single := TransformSingleRowInfo(row, mapping);
        single := Put(single, "VALUE", Strip(row.vals[values[i]]));
        single := Put(single, "VALUE_CODE", values[i]);
        single := Put(single, "VALUE_TYPE", types[i]);
        if dates[i] in row.vals && Strip(row.vals[dates[i]]) !in NoneValuesMulti {
          single := Put(single, "VALUE_DATE", row.vals[dates[i]]);
        }
        assert single == items[i];
        rows := rows + [single];
      }
    }
    assert flags[..n] == flags && items[..n] == items;
  }

  /** The parts from position i on, concatenated onto acc. */
  function Concat(parts: seq<seq<Row>>, i: nat, acc: seq<Row>): seq<Row>
    requires i <= |parts|
    decreases |parts| - i
  {
    if i == |parts| then acc else Concat(parts, i + 1, acc + parts[i])
  }

  lemma {:induction false} ConcatMeaning(parts: seq<seq<Row>>, i: nat, acc: seq<Row>, x: Row)
    requires i <= |parts|
    ensures x in Concat(parts, i, acc) <==> x in acc || exists j :: i <= j < |parts| && x in parts[j]
    decreases |parts| - i
  {
    if i < |parts| {
      ConcatMeaning(parts, i + 1, acc + parts[i], x);
    }
  }

  /** transform_multi_row_info of each stored record, in order. */
  function PerRecord(records: seq<Row>, mapping: Mapping, values: seq<string>, types: seq<string>, dates: seq<string>): (r: seq<seq<Row>>)
    ensures |r| == |records|
    ensures forall j :: 0 <= j < |records| ==> r[j] == MultiRows(records[j], mapping, values, types, dates)
  {
    seq(|records|, j requires 0 <= j < |records| => MultiRows(records[j], mapping, values, types, dates))
  }

  /** What transform_single_row_to_multi_row returns. */
  function AllMultiRows(info: RowInfo, mapping: Mapping, values: seq<string>, types: seq<string>, dates: seq<string>): seq<Row> {
    Concat(PerRecord(Values(info), mapping, values, types, dates), 0, [])
  }

  /** transform_single_row_to_multi_row returns exactly the multi-row
      outputs of the stored records. */
  lemma AllMultiRowsMeaning(info: RowInfo, mapping: Mapping, values: seq<string>, types: seq<string>, dates: seq<string>, x: Row)
    ensures x in AllMultiRows(info, mapping, values, types, dates) <==>
      exists k :: k in info.vals && x in MultiRows(info.vals[k], mapping, values, types, dates)
  {
    var parts := PerRecord(Values(info), mapping, values, types, dates);
    ConcatMeaning(parts, 0, [], x);
    if x in AllMultiRows(info, mapping, values, types, dates) {
      var j :| 0 <= j < |parts| && x in parts[j];
      assert info.keys[j] in info.vals;
    }
    if exists k :: k in info.vals && x in MultiRows(info.vals[k], mapping, values, types, dates) {
      var k :| k in info.vals && x in MultiRows(info.vals[k], mapping, values, types, dates);
      var j :| 0 <= j < |info.keys| && info.keys[j] == k;
      assert x in parts[j];
    }
  }

  /** The parts one after the other. */
  function Flatten(parts: seq<seq<Row>>): seq<Row> {
    if parts == [] then [] else parts[0] + Flatten(parts[1..])
  }

  lemma {:induction false} ConcatFlatten(parts: seq<seq<Row>>, i: nat, acc: seq<Row>)
    requires i <= |parts|
    ensures Concat(parts, i, acc) == acc + Flatten(parts[i..])
    decreases |parts| - i
  {
    if i == |parts| {
      assert parts[i..] == [];
    } else {
      ConcatFlatten(parts, i + 1, acc + parts[i]);
      assert parts[i..][1..] == parts[i + 1..];
      assert (acc + parts[i]) + Flatten(parts[i + 1..]) == acc + (parts[i] + Flatten(parts[i + 1..]));
    }
  }

  /** transform_single_row_to_multi_row returns the rows of the first
      stored record, then those of the second, and so on in the dict's
      order. */
  lemma AllMultiRowsInOrder(info: RowInfo, mapping: Mapping, values: seq<string>, types: seq<string>, dates: seq<string>)
    ensures AllMultiRows(info, mapping, values, types, dates) == Flatten(PerRecord(Values(info), mapping, values, types, dates))
  {
    var parts := PerRecord(Values(info), mapping, values, types, dates);
    ConcatFlatten(parts, 0, []);
    assert parts[0..] == parts;
  }

  /** Storing a new record last appends its rows. */
  lemma AllMultiRowsPut(info: RowInfo, mapping: Mapping, values: seq<string>, types: seq<string>, dates: seq<string>, k: string, r: Row)
    requires k !in info.vals
    ensures AllMultiRows(Put(info, k, r), mapping, values, types, dates) ==
      AllMultiRows(info, mapping, values, types, dates) + MultiRows(r, mapping, values, types, dates)
  {
    var parts := PerRecord(Values(info), mapping, values, types, dates);
    var p := MultiRows(r, mapping, values, types, dates);
    assert Values(Put(info, k, r)) == Values(info) + [r];
    assert PerRecord(Values(Put(info, k, r)), mapping, values, types, dates) == parts + [p];
    ConcatSnoc(parts, p, 0, []);
  }

  lemma {:induction false} ConcatSnoc(parts: seq<seq<Row>>, p: seq<Row>, i: nat, acc: seq<Row>)
    requires i <= |parts|
    ensures Concat(parts + [p], i, acc) == Concat(parts, i, acc) + p
    decreases |parts| - i
  {
    if i < |parts| {
      assert (parts + [p])[i] == parts[i];
      ConcatSnoc(parts, p, i + 1, acc + parts[i]);
    } else {
      assert (parts + [p])[i] == p;
    }
  }

  /** transform_single_row_to_multi_row, proved to compute AllMultiRows. */
  method TransformSingleRowToMultiRow(info: RowInfo, mapping: Mapping, values: seq<string>, types: seq<string>, dates: seq<string>)
    returns (rows: seq<Row>)
    ensures rows == AllMultiRows(info, mapping, values, types, dates)
  {
    var records := Values(info);
    ghost var parts := PerRecord(records, mapping, values, types, dates);
    rows := [];
    for i := 0 to |records|
      invariant Concat(parts, i, rows) == AllMultiRows(info, mapping, values, types, dates)
    {
      var produced := TransformMultiRowInfo(records[i], mapping, values, types, dates);
      rows := rows + produced;
    }
  }

  /** Each stored record through transform_single_row_info, in order. */
  function MapAll(records: seq<Row>, mapping: Mapping): (r: seq<Row>)
    ensures |r| == |records|
    ensures forall j :: 0 <= j < |records| ==> r[j] == MapRow(records[j], mapping)
  {
    seq(|records|, j requires 0 <= j < |records| => MapRow(records[j], mapping))
  }

  /** The mapped records[i..] filed onto acc under their join value, or the
      KeyError of the first one without the join field. */
  function FileFrom(mapped: seq<Row>, joinKey: string, i: nat, acc: RowInfo): Result<RowInfo>
    requires i <= |mapped|
    decreases |mapped| - i
  {
    if i == |mapped| then Ok(acc)
    else if joinKey !in mapped[i].vals then Err(KeyError(joinKey))
    else FileFrom(mapped, joinKey, i + 1, Put(acc, mapped[i].vals[joinKey], mapped[i]))
  }

  /** What transform_single_row_to_single_row returns or raises. */
  function SingleRows(info: RowInfo, mapping: Mapping, joinKey: string): Result<seq<Row>> {
    var byValue :- FileFrom(MapAll(Values(info), mapping), joinKey, 0, Empty());
    Ok(Values(byValue))
  }

  /** One record of the filing loop. */
  lemma FileFromStep(mapped: seq<Row>, joinKey: string, i: nat, acc: RowInfo)
    requires i < |mapped|
    ensures FileFrom(mapped, joinKey, i, acc) ==
      if joinKey !in mapped[i].vals then Err(KeyError(joinKey))
      else FileFrom(mapped, joinKey, i + 1, Put(acc, mapped[i].vals[joinKey], mapped[i]))
  {
  }

  /** transform_single_row_to_single_row, proved to compute SingleRows. */
  method TransformSingleRowToSingleRow(info: RowInfo, mapping: Mapping, joinKey: string) returns (r: Result<seq<Row>>)
    ensures r == SingleRows(info, mapping, joinKey)
  {
    var records := Values(info);
    ghost var mapped := MapAll(records, mapping);
    ghost var whole := FileFrom(mapped, joinKey, 0, Empty());
    var newRows: RowInfo := Empty();
    for i := 0 to |records|
      invariant FileFrom(mapped, joinKey, i, newRows) == whole
    {
      var transformed := TransformSingleRowInfo(records[i], mapping);
      assert transformed == mapped[i];
      FileFromStep(mapped, joinKey, i, newRows);
      if joinKey !in transformed.vals {
        return Err(KeyError(joinKey));
      }
      newRows := Put(newRows, transformed.vals[joinKey], transformed);
    }
    r := Ok(Values(newRows));
  }

  /** The join field of a mapped record ("" where it has none). */
  function JoinValue(mapped: Row, joinKey: string): string {
    if joinKey in mapped.vals then mapped.vals[joinKey] else ""
  }

  /** Every record of out is stored under its own join value. */
  ghost predicate Filed(out: RowInfo, joinKey: string) {
    forall k :: k in out.vals ==> joinKey in out.vals[k].vals && out.vals[k].vals[joinKey] == k
  }

  /** Every mapped record from position i on has the join field. */
  ghost predicate AllJoinable(mapped: seq<Row>, joinKey: string, i: nat) {
    forall j :: i <= j < |mapped| ==> joinKey in mapped[j].vals
  }

  lemma {:induction false} FileFromSucceeds(mapped: seq<Row>, joinKey: string, i: nat, acc: RowInfo)
    requires i <= |mapped|
    ensures FileFrom(mapped, joinKey, i, acc).Ok? <==> AllJoinable(mapped, joinKey, i)
    ensures FileFrom(mapped, joinKey, i, acc).Err? ==> FileFrom(mapped, joinKey, i, acc).error == KeyError(joinKey)
    decreases |mapped| - i
  {
    if i < |mapped| {
      if joinKey in mapped[i].vals {
        FileFromSucceeds(mapped, joinKey, i + 1, Put(acc, mapped[i].vals[joinKey], mapped[i]));
      } else {
        assert FileFrom(mapped, joinKey, i, acc) == Err(KeyError(joinKey));
        assert !AllJoinable(mapped, joinKey, i);
      }
    }
  }

  lemma {:induction false} FileFromFiles(mapped: seq<Row>, joinKey: string, i: nat, acc: RowInfo)
    requires i <= |mapped| && Filed(acc, joinKey)
    requires FileFrom(mapped, joinKey, i, acc).Ok?
    ensures Filed(FileFrom(mapped, joinKey, i, acc).value, joinKey)
    decreases |mapped| - i
  {
    if i < |mapped| {
      FiledPut(acc, joinKey, mapped[i]);
      FileFromFiles(mapped, joinKey, i + 1, Put(acc, mapped[i].vals[joinKey], mapped[i]));
    }
  }

  lemma FiledPut(acc: RowInfo, joinKey: string, r: Row)
    requires Filed(acc, joinKey) && joinKey in r.vals
    ensures Filed(Put(acc, r.vals[joinKey], r), joinKey)
  {
  }

  /** A join value no later record has keeps its stored record. */
  lemma {:induction false} FileFromKeeps(mapped: seq<Row>, joinKey: string, i: nat, acc: RowInfo, v: string)
    requires i <= |mapped| && v in acc.vals
    requires FileFrom(mapped, joinKey, i, acc).Ok?
    requires forall l :: i <= l < |mapped| ==> JoinValue(mapped[l], joinKey) != v
    ensures v in FileFrom(mapped, joinKey, i, acc).value.vals
    ensures FileFrom(mapped, joinKey, i, acc).value.vals[v] == acc.vals[v]
    decreases |mapped| - i
  {
    if i < |mapped| {
      var w := mapped[i].vals[joinKey];
      assert JoinValue(mapped[i], joinKey) == w != v;
      var next := Put(acc, w, mapped[i]);
      assert next.vals == acc.vals[w := mapped[i]];
      FileFromKeeps(mapped, joinKey, i + 1, next, v);
    }
  }

  lemma {:induction false} FileFromLastWins(mapped: seq<Row>, joinKey: string, i: nat, acc: RowInfo, j: nat)
    requires i <= j < |mapped|
    requires FileFrom(mapped, joinKey, i, acc).Ok?
    requires forall l :: j < l < |mapped| ==> JoinValue(mapped[l], joinKey) != JoinValue(mapped[j], joinKey)
    ensures JoinValue(mapped[j], joinKey) in FileFrom(mapped, joinKey, i, acc).value.vals
    ensures FileFrom(mapped, joinKey, i, acc).value.vals[JoinValue(mapped[j], joinKey)] == mapped[j]
    decreases |mapped| - i
  {
    var next := Put(acc, mapped[i].vals[joinKey], mapped[i]);
    if i < j {
      FileFromLastWins(mapped, joinKey, i + 1, next, j);
    } else {
      FileFromKeeps(mapped, joinKey, i + 1, next, mapped[i].vals[joinKey]);
    }
  }

  /** transform_single_row_to_single_row raises KeyError for the join field
      exactly when some mapped record lacks it. */
  lemma SingleRowsSucceeds(info: RowInfo, mapping: Mapping, joinKey: string)
    ensures SingleRows(info, mapping, joinKey).Ok? <==>
      forall k :: k in info.vals ==> joinKey in MapRow(info.vals[k], mapping).vals
    ensures SingleRows(info, mapping, joinKey).Err? ==> SingleRows(info, mapping, joinKey).error == KeyError(joinKey)
  {
    var records := Values(info);
    var mapped := MapAll(records, mapping);
    FileFromSucceeds(mapped, joinKey, 0, Empty());
    if SingleRows(info, mapping, joinKey).Ok? {
      forall k | k in info.vals
        ensures joinKey in MapRow(info.vals[k], mapping).vals
      {
        var j :| 0 <= j < |info.keys| && info.keys[j] == k;
        assert mapped[j] == MapRow(info.vals[k], mapping);
      }
    } else {
      var j :| 0 <= j < |mapped| && joinKey !in mapped[j].vals;
      assert info.keys[j] in info.vals;
    }
  }

  /** It returns one row per distinct join value: no two with the same one. */
  lemma SingleRowsDistinct(info: RowInfo, mapping: Mapping, joinKey: string, p: nat, q: nat)
    requires SingleRows(info, mapping, joinKey).Ok?
    requires p < q < |SingleRows(info, mapping, joinKey).value|
    ensures var out := SingleRows(info, mapping, joinKey).value;
      joinKey in out[p].vals && joinKey in out[q].vals && out[p].vals[joinKey] != out[q].vals[joinKey]
  {
    var mapped := MapAll(Values(info), mapping);
    FileFromFiles(mapped, joinKey, 0, Empty());
    var byValue := FileFrom(mapped, joinKey, 0, Empty()).value;
    assert byValue.keys[p] in byValue.vals && byValue.keys[q] in byValue.vals;
  }

  /** The j-th stored record, mapped, is returned as it is when no later
      stored record maps to the same join value: a later record replaces an
      earlier one. */
  lemma SingleRowsLastWins(info: RowInfo, mapping: Mapping, joinKey: string, j: nat)
    requires SingleRows(info, mapping, joinKey).Ok?
    requires j < |info.keys| && LastMapped(info, mapping, joinKey, j)
    ensures MapRow(info.vals[info.keys[j]], mapping) in SingleRows(info, mapping, joinKey).value
  {
    var mapped := MapAll(Values(info), mapping);
    FileFromLastWins(mapped, joinKey, 0, Empty(), j);
    var byValue := FileFrom(mapped, joinKey, 0, Empty()).value;
    var v := JoinValue(mapped[j], joinKey);
    var p :| 0 <= p < |byValue.keys| && byValue.keys[p] == v;
    assert Values(byValue)[p] == mapped[j];
  }

  /** The join values of the mapped records, in order. */
  function JoinValues(mapped: seq<Row>, joinKey: string): (r: seq<string>)
    ensures |r| == |mapped|
    ensures forall j :: 0 <= j < |mapped| ==> r[j] == JoinValue(mapped[j], joinKey)
  {
    seq(|mapped|, j requires 0 <= j < |mapped| => JoinValue(mapped[j], joinKey))
  }

  /** The distinct items of vs, in the order in which they first occur. */
  function FirstOccurrences(vs: seq<string>): seq<string> {
    if vs == [] then []
    else
      var n := |vs| - 1;
      if vs[n] in vs[..n] then FirstOccurrences(vs[..n]) else FirstOccurrences(vs[..n]) + [vs[n]]
  }

  /** They are distinct, and they are the items of vs. */
  lemma {:induction false} FirstOccurrencesMeaning(vs: seq<string>)
    ensures Distinct(FirstOccurrences(vs))
    ensures forall x :: x in FirstOccurrences(vs) <==> x in vs
  {
    if vs != [] {
      var n := |vs| - 1;
      FirstOccurrencesMeaning(vs[..n]);
      assert vs == vs[..n] + [vs[n]];
    }
  }

  /** One more item is new exactly when it is not among the earlier
      ones' first occurrences. */
  lemma FirstOccurrencesSnoc(vs: seq<string>, i: nat)
    requires i < |vs|
    ensures FirstOccurrences(vs[..i + 1]) ==
      var f := FirstOccurrences(vs[..i]); if vs[i] in f then f else f + [vs[i]]
  {
    FirstOccurrencesMeaning(vs[..i]);
    assert vs[..i + 1][..i] == vs[..i];
  }

  /** Filing the mapped records from position i on, onto a dict whose keys
      are the first occurrences of the join values before i, leaves the
      first occurrences of all of them. */
  lemma {:induction false} FileFromKeys(mapped: seq<Row>, joinKey: string, i: nat, acc: RowInfo)
    requires i <= |mapped|
    requires acc.keys == FirstOccurrences(JoinValues(mapped, joinKey)[..i])
    requires FileFrom(mapped, joinKey, i, acc).Ok?
    ensures FileFrom(mapped, joinKey, i, acc).value.keys == FirstOccurrences(JoinValues(mapped, joinKey))
    decreases |mapped| - i
  {
    var js := JoinValues(mapped, joinKey);
    if i == |mapped| {
      assert js[..i] == js;
    } else {
      var v := mapped[i].vals[joinKey];
      assert js[i] == v;
      var next := Put(acc, v, mapped[i]);
      assert v in acc.vals <==> v in acc.keys;
      FirstOccurrencesSnoc(js, i);
      FileFromKeys(mapped, joinKey, i + 1, next);
    }
  }

  /** No mapped record after position j has the join value of j. */
  ghost predicate LastWith(mapped: seq<Row>, joinKey: string, j: nat)
    requires j < |mapped|
  {
    forall l :: j < l < |mapped| ==> JoinValue(mapped[l], joinKey) != JoinValue(mapped[j], joinKey)
  }

  /** Where a stored record of the filing comes from: the record acc held,
      if no record from position i on has its join value, or otherwise the
      last mapped record with that join value. */
  ghost predicate FiledFrom(mapped: seq<Row>, joinKey: string, i: nat, acc: RowInfo, v: string, x: Row) {
    || (v in acc.vals && x == acc.vals[v] && forall l :: i <= l < |mapped| ==> JoinValue(mapped[l], joinKey) != v)
    || (exists j :: i <= j < |mapped| && JoinValue(mapped[j], joinKey) == v && x == mapped[j] && LastWith(mapped, joinKey, j))
  }

  lemma {:induction false} FileFromSource(mapped: seq<Row>, joinKey: string, i: nat, acc: RowInfo, v: string)
    requires i <= |mapped|
    requires FileFrom(mapped, joinKey, i, acc).Ok?
    requires v in FileFrom(mapped, joinKey, i, acc).value.vals
    ensures FiledFrom(mapped, joinKey, i, acc, v, FileFrom(mapped, joinKey, i, acc).value.vals[v])
    decreases |mapped| - i
  {
    if i < |mapped| {
      var w := mapped[i].vals[joinKey];
      assert JoinValue(mapped[i], joinKey) == w;
      var next := Put(acc, w, mapped[i]);
      FileFromSource(mapped, joinKey, i + 1, next, v);
      var x := FileFrom(mapped, joinKey, i, acc).value.vals[v];
      assert x == FileFrom(mapped, joinKey, i + 1, next).value.vals[v];
      if v in next.vals && x == next.vals[v] && forall l :: i + 1 <= l < |mapped| ==> JoinValue(mapped[l], joinKey) != v {
        if v == w {
          assert JoinValue(mapped[i], joinKey) == v && x == mapped[i];
        } else {
          assert v in acc.vals && x == acc.vals[v];
        }
      } else {
        var j :| i + 1 <= j < |mapped| && JoinValue(mapped[j], joinKey) == v && x == mapped[j] && LastWith(mapped, joinKey, j);
      }
    }
  }

  /** No stored record after the j-th maps to the join value the j-th
      maps to. */
  ghost predicate LastMapped(info: RowInfo, mapping: Mapping, joinKey: string, j: nat)
    requires j < |info.keys|
  {
    forall l :: j < l < |info.keys| ==>
      JoinValue(MapRow(info.vals[info.keys[l]], mapping), joinKey) != JoinValue(MapRow(info.vals[info.keys[j]], mapping), joinKey)
  }

  lemma LastMappedFrom(info: RowInfo, mapping: Mapping, joinKey: string, mapped: seq<Row>, j: nat)
    requires mapped == MapAll(Values(info), mapping)
    requires j < |mapped| && LastWith(mapped, joinKey, j)
    ensures j < |info.keys| && LastMapped(info, mapping, joinKey, j)
    ensures mapped[j] == MapRow(info.vals[info.keys[j]], mapping)
  {
    forall l | j < l < |info.keys|
      ensures JoinValue(MapRow(info.vals[info.keys[l]], mapping), joinKey) != JoinValue(MapRow(info.vals[info.keys[j]], mapping), joinKey)
    {
      assert mapped[l] == MapRow(info.vals[info.keys[l]], mapping);
    }
  }

  /** Every row transform_single_row_to_single_row returns is a stored
      record, mapped, that no later stored record shares its join value
      with. */
  lemma SingleRowsSound(info: RowInfo, mapping: Mapping, joinKey: string, x: Row)
    requires SingleRows(info, mapping, joinKey).Ok?
    requires x in SingleRows(info, mapping, joinKey).value
    ensures exists j :: 0 <= j < |info.keys| && x == MapRow(info.vals[info.keys[j]], mapping) && LastMapped(info, mapping, joinKey, j)
  {
    var mapped := MapAll(Values(info), mapping);
    var byValue := FileFrom(mapped, joinKey, 0, Empty()).value;
    var out := Values(byValue);
    assert SingleRows(info, mapping, joinKey).value == out;
    var p :| 0 <= p < |out| && out[p] == x;
    var v := byValue.keys[p];
    FileFromSource(mapped, joinKey, 0, Empty(), v);
    var j :| 0 <= j < |mapped| && JoinValue(mapped[j], joinKey) == v && x == mapped[j] && LastWith(mapped, joinKey, j);
    LastMappedFrom(info, mapping, joinKey, mapped, j);
  }

  /** The join values of the returned rows, in order, are the distinct join
      values of the mapped records in the order they first occur:
      new_rows[v] = row keeps the place of v's first insertion. */
  lemma SingleRowsOrder(info: RowInfo, mapping: Mapping, joinKey: string)
    requires SingleRows(info, mapping, joinKey).Ok?
    ensures JoinValues(SingleRows(info, mapping, joinKey).value, joinKey) ==
      FirstOccurrences(JoinValues(MapAll(Values(info), mapping), joinKey))
  {
    var mapped := MapAll(Values(info), mapping);
    var byValue := FileFrom(mapped, joinKey, 0, Empty()).value;
    assert JoinValues(mapped, joinKey)[..0] == [];
    FileFromKeys(mapped, joinKey, 0, Empty());
    FileFromFiles(mapped, joinKey, 0, Empty());
    var out := Values(byValue);
    forall p | 0 <= p < |out|
      ensures JoinValue(out[p], joinKey) == byValue.keys[p]
    {
      assert byValue.keys[p] in byValue.vals;
    }
  }
}
