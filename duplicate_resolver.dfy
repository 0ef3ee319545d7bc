/** The duplicate resolver of csv_fhirify.py: records whose keys differ only
    in their first character (a "K100" and an "A100") are merged into one,
    the priority marker deciding which side's values win. */
module DuplicateResolver {
  import opened Outcomes
  import opened Dicts
  import opened Text
  import opened RowLoader

  /** sorted([a, b]) for two keys. */
  datatype Pair = Pair(first: string, second: string)

  function Sorted2(a: string, b: string): (p: Pair)
    ensures a != b ==> Less(p.first, p.second)
    ensures (p.first == a && p.second == b) || (p.first == b && p.second == a)
  {
    if a == b then Pair(a, b)
    else
      LessTotal(a, b);
      if Less(b, a) then Pair(b, a) else Pair(a, b)
  }

  /** The inner loop of find_duplicates for the key at position c, from
      position f on, appending to acc. */
  function ScanInner(keys: seq<string>, c: nat, f: nat, acc: seq<Pair>): seq<Pair>
    requires c < |keys| && f <= |keys|
    decreases |keys| - f
  {
    if f == |keys| then acc
    else
      var p := Sorted2(keys[c], keys[f]);
      var acc' := if c != f && Tail(keys[c]) == Tail(keys[f]) && p !in acc then acc + [p] else acc;
      ScanInner(keys, c, f + 1, acc')
  }

  /** The outer loop of find_duplicates from position c on. */
  function ScanOuter(keys: seq<string>, c: nat, acc: seq<Pair>): seq<Pair>
    requires c <= |keys|
    decreases |keys| - c
  {
    if c == |keys| then acc else ScanOuter(keys, c + 1, ScanInner(keys, c, 0, acc))
  }

  /** What find_duplicates returns for a dict with these keys. */
  function Duplicates(keys: seq<string>): seq<Pair> {
    ScanOuter(keys, 0, [])
  }

  /** The inner loop of find_duplicates for the key at position c, proved to compute ScanInner. */
  method ScanKey(keys: seq<string>, c: nat, acc: seq<Pair>) returns (matches: seq<Pair>)
    requires c < |keys|
    ensures matches == ScanInner(keys, c, 0, acc)
  {
    matches := acc;
    var f := 0;
    while f < |keys|
      invariant 0 <= f <= |keys|
      invariant ScanInner(keys, c, f, matches) == ScanInner(keys, c, 0, acc)
    {
      var p := Sorted2(keys[c], keys[f]);
      if c != f && Tail(keys[c]) == Tail(keys[f]) && p !in matches {
        matches := matches + [p];
      }
      f := f + 1;
    }
  }

  /** find_duplicates, proved to compute Duplicates. */
  method FindDuplicates(info: RowInfo) returns (matches: seq<Pair>)
    ensures matches == Duplicates(info.keys)
  {
    var keys := info.keys;
    matches := [];
    var c := 0;
    while c < |keys|
      invariant 0 <= c <= |keys|
      invariant ScanOuter(keys, c, matches) == Duplicates(keys)
    {
      matches := ScanKey(keys, c, matches);
      c := c + 1;
    }
  }

  /** A pair find_duplicates may report: two keys, in order, equal after their first character. */
  ghost predicate Twins(keys: seq<string>, p: Pair) {
    p.first in keys && p.second in keys && Less(p.first, p.second) && Tail(p.first) == Tail(p.second)
  }

  ghost predicate NoRepeats(s: seq<Pair>) {
    forall i, j :: 0 <= i < j < |s| ==> s[i] != s[j]
  }

  ghost predicate Good(keys: seq<string>, acc: seq<Pair>) {
    (forall p :: p in acc ==> Twins(keys, p)) && NoRepeats(acc)
  }

  lemma {:induction false} ScanInnerKeeps(keys: seq<string>, c: nat, f: nat, acc: seq<Pair>)
    requires c < |keys| && f <= |keys|
    ensures forall p :: p in acc ==> p in ScanInner(keys, c, f, acc)
    decreases |keys| - f
  {
    if f < |keys| {
      var p := Sorted2(keys[c], keys[f]);
      var acc' := if c != f && Tail(keys[c]) == Tail(keys[f]) && p !in acc then acc + [p] else acc;
      ScanInnerKeeps(keys, c, f + 1, acc');
    }
  }

  lemma {:induction false} ScanInnerGood(keys: seq<string>, c: nat, f: nat, acc: seq<Pair>)
    requires Distinct(keys) && c < |keys| && f <= |keys|
    requires Good(keys, acc)
    ensures Good(keys, ScanInner(keys, c, f, acc))
    decreases |keys| - f
  {
    if f < |keys| {
      var p := Sorted2(keys[c], keys[f]);
      if c != f && Tail(keys[c]) == Tail(keys[f]) && p !in acc {
        assert keys[c] != keys[f];
        assert Twins(keys, p);
        ScanInnerGood(keys, c, f + 1, acc + [p]);
      } else {
        ScanInnerGood(keys, c, f + 1, acc);
      }
    }
  }

  lemma {:induction false} ScanInnerCovers(keys: seq<string>, c: nat, f: nat, acc: seq<Pair>)
    requires c < |keys| && f <= |keys|
    ensures forall g :: f <= g < |keys| && g != c && Tail(keys[c]) == Tail(keys[g]) ==>
      Sorted2(keys[c], keys[g]) in ScanInner(keys, c, f, acc)
    decreases |keys| - f
  {
    if f < |keys| {
      var p := Sorted2(keys[c], keys[f]);
      var acc' := if c != f && Tail(keys[c]) == Tail(keys[f]) && p !in acc then acc + [p] else acc;
      ScanInnerCovers(keys, c, f + 1, acc');
      ScanInnerKeeps(keys, c, f + 1, acc');
    }
  }

  lemma ScanInnerSound(keys: seq<string>, c: nat, acc: seq<Pair>)
    requires Distinct(keys) && c < |keys|
    requires Good(keys, acc)
    ensures Good(keys, ScanInner(keys, c, 0, acc))
    ensures forall p :: p in acc ==> p in ScanInner(keys, c, 0, acc)
    ensures forall g :: 0 <= g < |keys| && g != c && Tail(keys[c]) == Tail(keys[g]) ==>
      Sorted2(keys[c], keys[g]) in ScanInner(keys, c, 0, acc)
  {
    ScanInnerKeeps(keys, c, 0, acc);
    ScanInnerGood(keys, c, 0, acc);
    ScanInnerCovers(keys, c, 0, acc);
  }

  lemma {:induction false} ScanOuterSound(keys: seq<string>, c: nat, acc: seq<Pair>)
    requires Distinct(keys) && c <= |keys|
    requires Good(keys, acc)
    ensures Good(keys, ScanOuter(keys, c, acc))
    ensures forall a, b :: c <= a < |keys| && 0 <= b < |keys| && a != b && Tail(keys[a]) == Tail(keys[b]) ==>
      Sorted2(keys[a], keys[b]) in ScanOuter(keys, c, acc)
    decreases |keys| - c
  {
    if c < |keys| {
      var acc' := ScanInner(keys, c, 0, acc);
      ScanInnerSound(keys, c, acc);
      ScanOuterSound(keys, c + 1, acc');
      ScanOuterKeeps(keys, c + 1, acc');
    }
  }

  lemma {:induction false} ScanOuterKeeps(keys: seq<string>, c: nat, acc: seq<Pair>)
    requires Distinct(keys) && c <= |keys|
    requires Good(keys, acc)
    ensures forall p :: p in acc ==> p in ScanOuter(keys, c, acc)
    decreases |keys| - c
  {
    if c < |keys| {
      ScanInnerSound(keys, c, acc);
      ScanOuterKeeps(keys, c + 1, ScanInner(keys, c, 0, acc));
    }
  }

  /** find_duplicates reports exactly the pairs of different keys that agree
      after their first character, each once, as sorted([key, found_key]). */
  lemma DuplicatesExactly(keys: seq<string>)
    requires Distinct(keys)
    ensures NoRepeats(Duplicates(keys))
    ensures forall p :: p in Duplicates(keys) <==> Twins(keys, p)
  {
    ScanOuterSound(keys, 0, []);
    forall p | Twins(keys, p)
      ensures p in Duplicates(keys)
    {
      var a :| 0 <= a < |keys| && keys[a] == p.first;
      var b :| 0 <= b < |keys| && keys[b] == p.second;
      LessIrreflexive(p.first);
      LessTotal(p.first, p.second);
      assert Sorted2(keys[a], keys[b]) == p;
    }
  }

  /** choose_value_by_key: with two truthy values the override picks, else
      the truthy one, else "". A missing override (None) counts as False. */
  function ChooseValue(v1: string, v2: string, overrideWithFirst: Option<bool>): (r: string)
    ensures r == "" <==> v1 == "" && v2 == ""
    ensures r == v1 || r == v2
    ensures v1 != "" && v2 == "" ==> r == v1
    ensures v1 == "" && v2 != "" ==> r == v2
    ensures v1 != "" && v2 != "" ==> r == (if overrideWithFirst == Some(true) then v1 else v2)
  {
    if v1 != "" && v2 != "" then
      if overrideWithFirst == Some(true) then v1 else v2
    else if v1 != "" then v1
    else if v2 != "" then v2
    else ""
  }

  /** Swapping the sides and negating the override picks the same value, and
      an undetermined override behaves as False. */
  lemma ChooseValueSymmetric(v1: string, v2: string)
    ensures ChooseValue(v1, v2, Some(true)) == ChooseValue(v2, v1, Some(false))
    ensures ChooseValue(v1, v2, Some(false)) == ChooseValue(v2, v1, Some(true))
    ensures ChooseValue(v1, v2, None) == ChooseValue(v1, v2, Some(false))
  {
  }

  /** The join value starts with the priority marker; an empty value has no
      first character and raises IndexError. */
  function Marked(value: string, marker: string): Result<bool> {
    if |value| == 0 then Err(IndexError) else Ok([value[0]] == marker)
  }

  /** determine_override_key: True if dict1's join value carries the marker,
      else False if dict2's does, else None. */
  function DetermineOverride(d1: Row, d2: Row, joinKey: string, marker: string): (r: Result<Option<bool>>)
    ensures r == Ok(Some(true)) <==> joinKey in d1.vals && Marked(d1.vals[joinKey], marker) == Ok(true)
    ensures r == Ok(Some(false)) <==>
      && (joinKey !in d1.vals || Marked(d1.vals[joinKey], marker) == Ok(false))
      && joinKey in d2.vals && Marked(d2.vals[joinKey], marker) == Ok(true)
    ensures r.Err? <==>
      || (joinKey in d1.vals && d1.vals[joinKey] == "")
      || ((joinKey !in d1.vals || Marked(d1.vals[joinKey], marker) == Ok(false))
          && (joinKey !in d2.vals || d2.vals[joinKey] == ""))
    ensures r.Err? && joinKey !in d2.vals && joinKey !in d1.vals ==> r.error == KeyError(joinKey)
  {
    var first :- if joinKey in d1.vals then Marked(d1.vals[joinKey], marker) else Ok(false);
    if first then Ok(Some(true))
    else if joinKey !in d2.vals then Err(KeyError(joinKey))
    else
      var second :- Marked(d2.vals[joinKey], marker);
      if second then Ok(Some(false)) else Ok(None)
  }

  /** The keys of d1, in d1's order, that d2 also has. */
  function CommonKeys(d1: Row, d2: Row): seq<string> {
    FilterOut(d1.keys, d1.vals.Keys - d2.vals.Keys)
  }

  /** The loop of merge_dict over the keys ks of dict1, adding to dict3. */
  function MergeFrom(d1: Row, d2: Row, ov: Option<bool>, ks: seq<string>, acc: Row): Row
    requires forall k :: k in ks ==> k in d1.vals
    decreases |ks|
  {
    if ks == [] then acc
    else
      var acc' := if ks[0] in d2.vals then Put(acc, ks[0], ChooseValue(d1.vals[ks[0]], d2.vals[ks[0]], ov)) else acc;
      MergeFrom(d1, d2, ov, ks[1..], acc')
  }

  /** dict3 of merge_dict once the override is known. */
  function MergeFields(d1: Row, d2: Row, ov: Option<bool>): Row {
    MergeFrom(d1, d2, ov, d1.keys, Empty())
  }

  /** What dict3 holds after the first i keys of dict1. */
  ghost predicate MergedPrefix(d1: Row, d2: Row, ov: Option<bool>, i: nat, acc: Row)
    requires i <= |d1.keys|
  {
    && acc.keys == FilterOut(d1.keys[..i], d1.vals.Keys - d2.vals.Keys)
    && HoldsCommon(d1.keys[..i], d2, acc)
    && HoldsChosen(d1, d2, ov, acc)
  }

  /** acc holds exactly the keys of ks that d2 has. */
  ghost predicate HoldsCommon(ks: seq<string>, d2: Row, acc: Row) {
    forall k :: k in acc.vals <==> k in ks && k in d2.vals
  }

  /** Every value of acc is the one choose_value_by_key picks. */
  ghost predicate HoldsChosen(d1: Row, d2: Row, ov: Option<bool>, acc: Row) {
    forall k :: k in acc.vals ==> k in d1.vals && k in d2.vals && acc.vals[k] == ChooseValue(d1.vals[k], d2.vals[k], ov)
  }

  lemma ChosenStep(d1: Row, d2: Row, ov: Option<bool>, k: string, acc: Row)
    requires k in d1.vals && k in d2.vals && HoldsChosen(d1, d2, ov, acc)
    ensures HoldsChosen(d1, d2, ov, Put(acc, k, ChooseValue(d1.vals[k], d2.vals[k], ov)))
  {
  }

  lemma CommonStep(ks: seq<string>, k: string, v: string, d2: Row, acc: Row)
    requires HoldsCommon(ks, d2, acc)
    ensures k in d2.vals ==> HoldsCommon(ks + [k], d2, Put(acc, k, v))
    ensures k !in d2.vals ==> HoldsCommon(ks + [k], d2, acc)
  {
  }

  /** A key of dict1 that dict2 also has is added, last, with the chosen value. */
  lemma MergedStepCommon(d1: Row, d2: Row, ov: Option<bool>, i: nat, acc: Row)
    requires i < |d1.keys| && MergedPrefix(d1, d2, ov, i, acc) && d1.keys[i] in d2.vals
    ensures MergedPrefix(d1, d2, ov, i + 1, Put(acc, d1.keys[i], ChooseValue(d1.vals[d1.keys[i]], d2.vals[d1.keys[i]], ov)))
  {
    var k := d1.keys[i];
    assert d1.keys[..i + 1] == d1.keys[..i] + [k];
    assert k !in d1.keys[..i];
    FilterOutSnoc(d1.keys[..i], k, d1.vals.Keys - d2.vals.Keys);
    ChosenStep(d1, d2, ov, k, acc);
    CommonStep(d1.keys[..i], k, ChooseValue(d1.vals[k], d2.vals[k], ov), d2, acc);
  }

  /** A key of dict1 that dict2 lacks is skipped. */
  lemma MergedStepSkip(d1: Row, d2: Row, ov: Option<bool>, i: nat, acc: Row)
    requires i < |d1.keys| && MergedPrefix(d1, d2, ov, i, acc) && d1.keys[i] !in d2.vals
    ensures MergedPrefix(d1, d2, ov, i + 1, acc)
  {
    var k := d1.keys[i];
    assert d1.keys[..i + 1] == d1.keys[..i] + [k];
    FilterOutSnoc(d1.keys[..i], k, d1.vals.Keys - d2.vals.Keys);
    CommonStep(d1.keys[..i], k, "", d2, acc);
  }

  lemma MergedAll(d1: Row, d2: Row, ov: Option<bool>, acc: Row)
    requires MergedPrefix(d1, d2, ov, |d1.keys|, acc)
    ensures acc.keys == CommonKeys(d1, d2)
    ensures forall k :: k in acc.vals <==> k in d1.vals && k in d2.vals
    ensures forall k :: k in acc.vals ==> acc.vals[k] == ChooseValue(d1.vals[k], d2.vals[k], ov)
  {
    assert d1.keys[..|d1.keys|] == d1.keys;
  }

  lemma {:induction false} MergeFromMeaning(d1: Row, d2: Row, ov: Option<bool>, i: nat, acc: Row)
    requires i <= |d1.keys| && MergedPrefix(d1, d2, ov, i, acc)
    ensures MergedPrefix(d1, d2, ov, |d1.keys|, MergeFrom(d1, d2, ov, d1.keys[i..], acc))
    decreases |d1.keys| - i
  {
    if i == |d1.keys| {
      assert d1.keys[i..] == [];
    } else {
      var k := d1.keys[i];
      assert d1.keys[i..][1..] == d1.keys[i + 1..];
      var acc' := if k in d2.vals then Put(acc, k, ChooseValue(d1.vals[k], d2.vals[k], ov)) else acc;
      if k in d2.vals {
        MergedStepCommon(d1, d2, ov, i, acc);
      } else {
        MergedStepSkip(d1, d2, ov, i, acc);
      }
      MergeFromMeaning(d1, d2, ov, i + 1, acc');
    }
  }

  /** merge_dict keeps exactly the keys both records have, in dict1's order,
      each with the value choose_value_by_key picks. */
  lemma MergeFieldsMeaning(d1: Row, d2: Row, ov: Option<bool>)
    ensures MergeFields(d1, d2, ov).keys == CommonKeys(d1, d2)
    ensures forall k :: k in MergeFields(d1, d2, ov).vals <==> k in d1.vals && k in d2.vals
    ensures forall k :: k in MergeFields(d1, d2, ov).vals ==>
      MergeFields(d1, d2, ov).vals[k] == ChooseValue(d1.vals[k], d2.vals[k], ov)
  {
    assert d1.keys[0..] == d1.keys;
    MergeFromMeaning(d1, d2, ov, 0, Empty());
    MergedAll(d1, d2, ov, MergeFields(d1, d2, ov));
  }

  /** What merge_dict returns or raises. */
  function MergeDictSpec(d1: Row, d2: Row, joinKey: string, marker: string): Result<Row> {
    var ov :- DetermineOverride(d1, d2, joinKey, marker);
    Ok(MergeFields(d1, d2, ov))
  }

  lemma MergeFromStep(d1: Row, d2: Row, ov: Option<bool>, i: nat, acc: Row)
    requires i < |d1.keys|
    ensures var k := d1.keys[i];
      MergeFrom(d1, d2, ov, d1.keys[i..], acc) ==
      MergeFrom(d1, d2, ov, d1.keys[i + 1..], if k in d2.vals then Put(acc, k, ChooseValue(d1.vals[k], d2.vals[k], ov)) else acc)
  {
    assert d1.keys[i..][1..] == d1.keys[i + 1..];
  }

  /** The loop of merge_dict, proved to compute MergeFields. */
  method MergeLoop(d1: Row, d2: Row, ov: Option<bool>) returns (merged: Row)
    ensures merged == MergeFields(d1, d2, ov)
  {
    merged := Empty();
    var i := 0;
    assert d1.keys[0..] == d1.keys;
    while i < |d1.keys|
      invariant 0 <= i <= |d1.keys|
      invariant MergeFrom(d1, d2, ov, d1.keys[i..], merged) == MergeFields(d1, d2, ov)
    {
      var key := d1.keys[i];
      MergeFromStep(d1, d2, ov, i, merged);
      if key in d2.vals {
        merged := Put(merged, key, ChooseValue(d1.vals[key], d2.vals[key], ov));
      }
      i := i + 1;
    }
  }

  /** merge_dict, proved to compute MergeDictSpec. */
  method MergeDict(d1: Row, d2: Row, joinKey: string, marker: string) returns (r: Result<Row>)
    ensures r == MergeDictSpec(d1, d2, joinKey, marker)
  {
    var ov := DetermineOverride(d1, d2, joinKey, marker);
    if ov.Err? {
      return Err(ov.error);
    }
    var merged := MergeLoop(d1, d2, ov.value);
    r := Ok(merged);
  }

  /** When one side's join value carries the marker and the other side's is
      non-empty, the merged record keeps the marked join value. */
  lemma MergeKeepsMarkedKey(d1: Row, d2: Row, joinKey: string, marker: string)
    requires joinKey in d1.vals && joinKey in d2.vals
    requires d1.vals[joinKey] != "" && d2.vals[joinKey] != ""
    requires Marked(d1.vals[joinKey], marker) == Ok(true) || Marked(d2.vals[joinKey], marker) == Ok(true)
    ensures MergeDictSpec(d1, d2, joinKey, marker).Ok?
    ensures var m := MergeDictSpec(d1, d2, joinKey, marker).value;
      && joinKey in m.vals
      && Marked(m.vals[joinKey], marker) == Ok(true)
      && (Marked(d1.vals[joinKey], marker) == Ok(true) ==> m.vals[joinKey] == d1.vals[joinKey])
      && (Marked(d1.vals[joinKey], marker) == Ok(false) ==> m.vals[joinKey] == d2.vals[joinKey])
  {
    var ov := DetermineOverride(d1, d2, joinKey, marker).value;
    MergeFieldsMeaning(d1, d2, ov);
  }

  /** The loop of merge_duplicates from pair i on, filing each merged record
      under its own join value. */
  function MergeAll(info: RowInfo, pairs: seq<Pair>, joinKey: string, marker: string, acc: RowInfo): Result<RowInfo>
    decreases |pairs|
  {
    if pairs == [] then Ok(acc)
    else
      var merged :- MergePair(info, pairs[0], joinKey, marker);
      if joinKey !in merged.vals then Err(KeyError(joinKey))
      else MergeAll(info, pairs[1..], joinKey, marker, Put(acc, merged.vals[joinKey], merged))
  }

  /** One pass of the loop of merge_duplicates: both records looked up, a
      missing key raising KeyError, then merged. */
  function MergePair(info: RowInfo, p: Pair, joinKey: string, marker: string): Result<Row> {
    if p.first !in info.vals then Err(KeyError(p.first))
    else if p.second !in info.vals then Err(KeyError(p.second))
    else MergeDictSpec(info.vals[p.first], info.vals[p.second], joinKey, marker)
  }

  /** merge_duplicates, proved to compute MergeAll from an empty dict. */
  method MergeDuplicates(info: RowInfo, pairs: seq<Pair>, joinKey: string, marker: string) returns (r: Result<RowInfo>)
    ensures r == MergeAll(info, pairs, joinKey, marker, Empty())
  {
    var deduped: RowInfo := Empty();
    var i := 0;
    while i < |pairs|
      invariant 0 <= i <= |pairs|
      invariant MergeAll(info, pairs[i..], joinKey, marker, deduped) == MergeAll(info, pairs, joinKey, marker, Empty())
    {
      var p := pairs[i];
      assert pairs[i..][1..] == pairs[i + 1..];
      if p.first !in info.vals {
        return Err(KeyError(p.first));
      }
      if p.second !in info.vals {
        return Err(KeyError(p.second));
      }
      var merged := MergeDict(info.vals[p.first], info.vals[p.second], joinKey, marker);
      if merged.Err? {
        return Err(merged.error);
      }
      if joinKey !in merged.value.vals {
        return Err(KeyError(joinKey));
      }
      deduped := Put(deduped, merged.value.vals[joinKey], merged.value);
      i := i + 1;
    }
    r := Ok(deduped);
  }

  /** Every record merge_duplicates produces is filed under its own join value. */
  lemma {:induction false} MergeAllFiledByJoinValue(info: RowInfo, pairs: seq<Pair>, joinKey: string, marker: string, acc: RowInfo)
    requires forall k :: k in acc.vals ==> joinKey in acc.vals[k].vals && acc.vals[k].vals[joinKey] == k
    requires MergeAll(info, pairs, joinKey, marker, acc).Ok?
    ensures var out := MergeAll(info, pairs, joinKey, marker, acc).value;
      forall k :: k in out.vals ==> joinKey in out.vals[k].vals && out.vals[k].vals[joinKey] == k
    decreases |pairs|
  {
    if pairs != [] {
      var merged := MergePair(info, pairs[0], joinKey, marker).value;
      MergeAllFiledByJoinValue(info, pairs[1..], joinKey, marker, Put(acc, merged.vals[joinKey], merged));
    }
  }

  /** The keys of all pairs. */
  function PairKeys(pairs: seq<Pair>): set<string> {
    if pairs == [] then {} else {pairs[0].first, pairs[0].second} + PairKeys(pairs[1..])
  }

  /** The pop loop of remove_duplicate_row_info from pair i on. */
  function PopAll(info: RowInfo, pairs: seq<Pair>): RowInfo
    decreases |pairs|
  {
    if pairs == [] then info else PopAll(Pop(Pop(info, pairs[0].first), pairs[0].second), pairs[1..])
  }

  lemma RemoveKeysTwice(info: RowInfo, a: set<string>, b: set<string>)
    ensures RemoveKeys(RemoveKeys(info, a), b) == RemoveKeys(info, a + b)
  {
    FilterOutTwice(info.keys, a, b);
    assert (info.vals - a) - b == info.vals - (a + b);
  }

  lemma RemoveNoKeys(info: RowInfo)
    ensures RemoveKeys(info, {}) == info
  {
    FilterOutNothing(info.keys, {});
    assert info.vals - {} == info.vals;
  }

  /** remove_duplicate_row_info pops from a copy exactly the keys of the
      pairs; every other record keeps its value and place. */
  lemma {:induction false} RemovesPairKeys(info: RowInfo, pairs: seq<Pair>)
    ensures PopAll(info, pairs) == RemoveKeys(info, PairKeys(pairs))
    decreases |pairs|
  {
    if pairs == [] {
      RemoveNoKeys(info);
    } else {
      var a := pairs[0].first;
      var b := pairs[0].second;
      var popped := Pop(Pop(info, a), b);
      RemoveKeysTwice(info, {a}, {b});
      assert popped == RemoveKeys(info, {a} + {b});
      RemovesPairKeys(popped, pairs[1..]);
      RemoveKeysTwice(info, {a} + {b}, PairKeys(pairs[1..]));
      assert {a} + {b} + PairKeys(pairs[1..]) == PairKeys(pairs);
    }
  }

  /** remove_duplicate_row_info, proved to compute PopAll; the input is a
      value, so the deep copy leaves it as it was. */
  method RemoveDuplicateRowInfo(pairs: seq<Pair>, info: RowInfo) returns (r: RowInfo)
    ensures r == PopAll(info, pairs)
  {
    r := info;
    var i := 0;
    while i < |pairs|
      invariant 0 <= i <= |pairs|
      invariant PopAll(r, pairs[i..]) == PopAll(info, pairs)
    {
      assert pairs[i..][1..] == pairs[i + 1..];
      r := Pop(r, pairs[i].first);
      r := Pop(r, pairs[i].second);
      i := i + 1;
    }
  }

  /** merge_dict_overwrite_first: {**dict1, **dict2}. */
  function MergeDictOverwriteFirst(d1: RowInfo, d2: RowInfo): (r: RowInfo)
    ensures forall k :: k in r.vals <==> k in d1.vals || k in d2.vals
    ensures forall k :: k in d2.vals ==> r.vals[k] == d2.vals[k]
    ensures forall k :: k in d1.vals && k !in d2.vals ==> r.vals[k] == d1.vals[k]
    ensures |d1.keys| <= |r.keys| && r.keys[..|d1.keys|] == d1.keys
  {
    Union(d1, d2)
  }

  /** What clean_duplicates_from_row_info returns or raises. */
  function Clean(info: RowInfo, joinKey: string, marker: string): Result<RowInfo> {
    var pairs := Duplicates(info.keys);
    var merged :- MergeAll(info, pairs, joinKey, marker, Empty());
    Ok(MergeDictOverwriteFirst(PopAll(info, pairs), merged))
  }

  /** clean_duplicates_from_row_info, proved to compute Clean. */
  method CleanDuplicates(info: RowInfo, joinKey: string, marker: string) returns (r: Result<RowInfo>)
    ensures r == Clean(info, joinKey, marker)
  {
    var pairs := FindDuplicates(info);
    var merged := MergeDuplicates(info, pairs, joinKey, marker);
    if merged.Err? {
      return Err(merged.error);
    }
    var removed := RemoveDuplicateRowInfo(pairs, info);
    r := Ok(MergeDictOverwriteFirst(removed, merged.value));
  }

  /** A key with a twin (another key equal after the first character). */
  ghost predicate HasTwin(keys: seq<string>, k: string) {
    exists k2 :: k2 in keys && k2 != k && Tail(k2) == Tail(k)
  }

  lemma {:induction false} PairKeysMembers(pairs: seq<Pair>, k: string)
    ensures k in PairKeys(pairs) <==> exists p :: p in pairs && (k == p.first || k == p.second)
    decreases |pairs|
  {
    if pairs != [] {
      PairKeysMembers(pairs[1..], k);
      assert forall p :: p in pairs <==> p == pairs[0] || p in pairs[1..];
    }
  }

  /** The keys find_duplicates puts in some pair are exactly the keys with a twin. */
  lemma DuplicateKeysAreTwins(keys: seq<string>, k: string)
    requires Distinct(keys) && k in keys
    ensures k in PairKeys(Duplicates(keys)) <==> HasTwin(keys, k)
  {
    var pairs := Duplicates(keys);
    DuplicatesExactly(keys);
    PairKeysMembers(pairs, k);
    if HasTwin(keys, k) {
      var k2 :| k2 in keys && k2 != k && Tail(k2) == Tail(k);
      var p := Sorted2(k, k2);
      assert Twins(keys, p);
      assert p in pairs;
    } else if k in PairKeys(pairs) {
      var p :| p in pairs && (k == p.first || k == p.second);
      LessIrreflexive(p.first);
      assert false;
    }
  }

  /** x is the merge of the i-th pair of records, for some i. */
  ghost predicate MergedFrom(info: RowInfo, pairs: seq<Pair>, joinKey: string, marker: string, x: Row) {
    exists i :: 0 <= i < |pairs| && MergePair(info, pairs[i], joinKey, marker) == Ok(x)
  }

  /** The pair's records merge, and the merge has a join value that is a
      key of out. */
  ghost predicate Filed(info: RowInfo, p: Pair, joinKey: string, marker: string, out: RowInfo) {
    && MergePair(info, p, joinKey, marker).Ok?
    && joinKey in MergePair(info, p, joinKey, marker).value.vals
    && MergePair(info, p, joinKey, marker).value.vals[joinKey] in out.vals
  }

  lemma {:induction false} MergeAllGrows(info: RowInfo, pairs: seq<Pair>, joinKey: string, marker: string, acc: RowInfo)
    requires MergeAll(info, pairs, joinKey, marker, acc).Ok?
    ensures forall k :: k in acc.vals ==> k in MergeAll(info, pairs, joinKey, marker, acc).value.vals
    decreases |pairs|
  {
    if pairs != [] {
      var m := MergePair(info, pairs[0], joinKey, marker).value;
      MergeAllGrows(info, pairs[1..], joinKey, marker, Put(acc, m.vals[joinKey], m));
    }
  }

  /** merge_duplicates files the merge of every pair under its join value. */
  lemma {:induction false} MergeAllCovers(info: RowInfo, pairs: seq<Pair>, joinKey: string, marker: string, acc: RowInfo)
    requires MergeAll(info, pairs, joinKey, marker, acc).Ok?
    ensures forall i :: 0 <= i < |pairs| ==> Filed(info, pairs[i], joinKey, marker, MergeAll(info, pairs, joinKey, marker, acc).value)
    decreases |pairs|
  {
    if pairs != [] {
      var m := MergePair(info, pairs[0], joinKey, marker).value;
      var acc' := Put(acc, m.vals[joinKey], m);
      var rest := pairs[1..];
      MergeAllCovers(info, rest, joinKey, marker, acc');
      MergeAllGrows(info, rest, joinKey, marker, acc');
      var out := MergeAll(info, rest, joinKey, marker, acc').value;
      forall i | 0 <= i < |pairs|
        ensures Filed(info, pairs[i], joinKey, marker, out)
      {
        if i > 0 {
          assert pairs[i] == rest[i - 1];
        }
      }
    }
  }

  lemma MergedFromFirst(info: RowInfo, pairs: seq<Pair>, joinKey: string, marker: string)
    requires pairs != [] && MergePair(info, pairs[0], joinKey, marker).Ok?
    ensures MergedFrom(info, pairs, joinKey, marker, MergePair(info, pairs[0], joinKey, marker).value)
  {
  }

  lemma MergedFromTail(info: RowInfo, pairs: seq<Pair>, joinKey: string, marker: string, x: Row)
    requires pairs != [] && MergedFrom(info, pairs[1..], joinKey, marker, x)
    ensures MergedFrom(info, pairs, joinKey, marker, x)
  {
    var i :| 0 <= i < |pairs[1..]| && MergePair(info, pairs[1..][i], joinKey, marker) == Ok(x);
    assert pairs[1..][i] == pairs[i + 1];
  }

  /** Every record merge_duplicates adds to acc is the merge of a pair. */
  lemma {:induction false} MergeAllSource(info: RowInfo, pairs: seq<Pair>, joinKey: string, marker: string, acc: RowInfo)
    requires MergeAll(info, pairs, joinKey, marker, acc).Ok?
    ensures var out := MergeAll(info, pairs, joinKey, marker, acc).value;
      forall k :: k in out.vals ==>
        (k in acc.vals && out.vals[k] == acc.vals[k]) || MergedFrom(info, pairs, joinKey, marker, out.vals[k])
    decreases |pairs|
  {
    if pairs != [] {
      var m := MergePair(info, pairs[0], joinKey, marker).value;
      var acc' := Put(acc, m.vals[joinKey], m);
      var rest := pairs[1..];
      MergeAllSource(info, rest, joinKey, marker, acc');
      var out := MergeAll(info, rest, joinKey, marker, acc').value;
      MergedFromFirst(info, pairs, joinKey, marker);
      forall x | MergedFrom(info, rest, joinKey, marker, x)
        ensures MergedFrom(info, pairs, joinKey, marker, x)
      {
        MergedFromTail(info, pairs, joinKey, marker, x);
      }
    }
  }

  /** After cleaning, a key without a twin is still present. Every record is
      either the input's record under a key without a twin, or the merge of
      one of the pairs find_duplicates returns, filed under its own join
      value. */
  lemma CleanOutcome(info: RowInfo, joinKey: string, marker: string)
    requires Clean(info, joinKey, marker).Ok?
    ensures var out := Clean(info, joinKey, marker).value;
      var pairs := Duplicates(info.keys);
      && (forall k :: k in info.vals && !HasTwin(info.keys, k) ==> k in out.vals)
      && (forall k :: k in out.vals ==>
            || (k in info.vals && !HasTwin(info.keys, k) && out.vals[k] == info.vals[k])
            || (joinKey in out.vals[k].vals && out.vals[k].vals[joinKey] == k && MergedFrom(info, pairs, joinKey, marker, out.vals[k])))
  {
    var pairs := Duplicates(info.keys);
    var merged := MergeAll(info, pairs, joinKey, marker, Empty()).value;
    MergeAllFiledByJoinValue(info, pairs, joinKey, marker, Empty());
    MergeAllSource(info, pairs, joinKey, marker, Empty());
    RemovesPairKeys(info, pairs);
    var out := Clean(info, joinKey, marker).value;
    assert out.vals == (info.vals - PairKeys(pairs)) + merged.vals;
    forall k | k in info.vals
      ensures k in PairKeys(pairs) <==> HasTwin(info.keys, k)
    {
      DuplicateKeysAreTwins(info.keys, k);
    }
  }

  /** After cleaning, the merge of every pair find_duplicates returns has
      its join value as a key, and the record there is a merge, overriding
      any record of the input left under that key. */
  lemma CleanFilesMerges(info: RowInfo, joinKey: string, marker: string)
    requires Clean(info, joinKey, marker).Ok?
    ensures var out := Clean(info, joinKey, marker).value;
      var pairs := Duplicates(info.keys);
      forall i :: 0 <= i < |pairs| ==>
        && Filed(info, pairs[i], joinKey, marker, out)
        && var v := MergePair(info, pairs[i], joinKey, marker).value.vals[joinKey];
           MergedFrom(info, pairs, joinKey, marker, out.vals[v])
  {
    var pairs := Duplicates(info.keys);
    var merged := MergeAll(info, pairs, joinKey, marker, Empty()).value;
    MergeAllSource(info, pairs, joinKey, marker, Empty());
    MergeAllCovers(info, pairs, joinKey, marker, Empty());
    var out := Clean(info, joinKey, marker).value;
    assert out == MergeDictOverwriteFirst(PopAll(info, pairs), merged);
    forall i | 0 <= i < |pairs|
      ensures MergedFrom(info, pairs, joinKey, marker, out.vals[MergePair(info, pairs[i], joinKey, marker).value.vals[joinKey]])
    {
      var v := MergePair(info, pairs[i], joinKey, marker).value.vals[joinKey];
      assert v in merged.vals;
    }
  }
}
