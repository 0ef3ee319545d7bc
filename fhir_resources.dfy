/** The FHIR resources built from one petl record: each builder starts
    from the id and the resource type and then inserts, one if-statement
    after another, the fields the record supplies. A builder is modelled as
    the list of those insertions (its steps) run in order over the dict. */
module FhirResources {
  import opened Outcomes
  import opened PyValues
  import opened FhirTypes

  /** A petl record: its fields with their values; a field listed twice
      reads as its first occurrence. */
  type Record = seq<Entry>

  /** has(rec, field): the record has the field and its value is truthy. */
  predicate Has(rec: Record, field: string) {
    Get(rec, field).Some? && Truthy(Get(rec, field).value)
  }

  /** rec[field]: a field the record lacks raises. */
  function Field(rec: Record, field: string): (r: Result<Py>)
    ensures r.Ok? <==> Get(rec, field).Some?
    ensures r.Ok? ==> r.value == Get(rec, field).value
    ensures r.Err? ==> r.error == KeyError(field)
  {
    if Get(rec, field).Some? then Ok(Get(rec, field).value) else Err(KeyError(field))
  }

  /** "Patient/" + subject: only a str concatenates with a str. */
  function Reference(subject: Py): (r: Result<Py>)
    ensures r.Ok? <==> subject.PyStr?
    ensures r.Ok? ==> r.value == PyStr("Patient/" + subject.s)
    ensures r.Err? ==> r.error == TypeError
  {
    if subject.PyStr? then Ok(PyStr("Patient/" + subject.s)) else Err(TypeError)
  }

  /** v.isoformat(): only dates have it. */
  function IsoFormat(v: Py): (r: Result<Py>)
    ensures r.Ok? <==> v.PyDate?
    ensures r.Ok? ==> r.value == PyStr(v.iso)
    ensures r.Err? ==> r.error == AttributeError
  {
    if v.PyDate? then Ok(PyStr(v.iso)) else Err(AttributeError)
  }

  const AnonSystem := "http://hl7.org/fhir/v2/0203"
  const SubjectIdSystem := "http://lifeomic.com/fhir/subject-id"
  const RaceUrl := "http://hl7.org/fhir/us/core/StructureDefinition/us-core-race"
  const EthnicityUrl := "http://hl7.org/fhir/StructureDefinition/us-core-ethnicity"
  const NctUrl := "http://hl7.org/fhir/StructureDefinition/patient-clinicalTrial-NCT"

  /** What a builder makes of the value of a field before inserting it. */
  datatype Conversion =
    | AsIs                 // the value itself
    | Coded                // to_codeable_concept(v)
    | CodedList            // [to_codeable_concept(v)]
    | TimingOf             // to_timing(v)
    | RatioOf              // to_ratio(v)
    | RangeOf              // to_range(v)
    | SimpleQuantityOf     // to_simple_quantity(v)
    | IsoDate              // v.isoformat()
    | PatientReference     // {"reference": "Patient/" + v}
    | NoteText             // [{"text": v}]
    | MetaTag              // {"tag": [tuple_to_code(v)]}
    | ValueOnly            // {"value": v}
    | Days                 // {"value": v, "unit": "days"}
    | SubjectIdentifier    // the anonymous subject-id identifier of a patient
    | RouteDosage          // [{"route": to_codeable_concept(v)}]
    | NctExtension         // the clinical-trial extension of a medication statement
    | Division             // {"div": v}

  function Convert(c: Conversion, v: Py): Result<Py> {
    match c
    case AsIs => Ok(v)
    case Coded => ToCodeableConcept(v)
    case CodedList => var cc :- ToCodeableConcept(v); Ok(PyList([cc]))
    case TimingOf => ToTiming(v)
    case RatioOf => ToRatio(v)
    case RangeOf => ToRange(v)
    case SimpleQuantityOf => ToSimpleQuantity(v)
    case IsoDate => IsoFormat(v)
    case PatientReference => var ref :- Reference(v); Ok(PyDict([Entry("reference", ref)]))
    case NoteText => Ok(PyList([PyDict([Entry("text", v)])]))
    case MetaTag => var code :- TupleToCode(v); Ok(PyDict([Entry("tag", PyList([code]))]))
    case ValueOnly => Ok(PyDict([Entry("value", v)]))
    case Days => Ok(PyDict([Entry("value", v), Entry("unit", PyStr("days"))]))
    case SubjectIdentifier =>
      var anon :- ToCodeableConcept(PyTuple([PyStr(AnonSystem), PyStr("ANON")]));
      Ok(PyList([PyDict([Entry("type", anon), Entry("system", PyStr(SubjectIdSystem)), Entry("value", v)])]))
    case RouteDosage => var route :- ToCodeableConcept(v); Ok(PyList([PyDict([Entry("route", route)])]))
    case NctExtension => Ok(PyList([PyDict([Entry("url", PyStr(NctUrl)), Entry("valueString", v)])]))
    case Division => Ok(PyDict([Entry("div", v)]))
  }

  /** One if-statement of a builder. */
  datatype Step =
    | Copy(field: string, key: string, conv: Conversion)
        // if has(rec, field): result[key] = conv(rec[field])
    | Subject(displayAsStr: bool)
        // the subject reference, with the display when the record has one
    | Period
        // effectivePeriod from start_date and end_date
    | Extension
        // the race and ethnicity extensions of a patient
    | ObservationValue(intended: bool)
        // the value of an observation, under a key that depends on its type;
        // intended: a number as the quantity of that number
    | Strict(test: string, field: string, key: string, conv: Conversion)
        // if rec[test]: result[key] = conv(rec[field]), raising on a missing field
    | LegacyObservationValue
        // the value of an observation in the older builders

  /** The keys a step may insert. */
  function StepKeys(s: Step): seq<string> {
    match s
    case Copy(_, key, _) => [key]
    case Subject(_) => ["subject"]
    case Period => ["effectivePeriod"]
    case Extension => ["extension"]
    case ObservationValue(_) => ["valueQuantity", "valueCodeableConcept", "valueString"]
    case Strict(_, _, key, _) => [key]
    case LegacyObservationValue => ["valueQuantity", "valueString"]
  }

  /** The subject of an observation or a medication statement; the
      statement passes the display through str(). */
  function SubjectEntry(rec: Record, displayAsStr: bool): Result<Option<Entry>> {
    if Has(rec, "subject") then
      var ref :- Reference(Get(rec, "subject").value);
      if Has(rec, "subject_display") then
        Ok(Some(Entry("subject", PyDict([Entry("reference", ref), Entry("display", Displayed(Get(rec, "subject_display").value, displayAsStr))]))))
      else Ok(Some(Entry("subject", PyDict([Entry("reference", ref)]))))
    else Ok(None)
  }

  /** The display as inserted: str(display) in a medication statement. */
  function Displayed(display: Py, asStr: bool): Py {
    if asStr && Printable(display) then PyStr(Str(display)) else display
  }

  /** effectivePeriod: created with the start, then updated with the end;
      an end without a start updates a period that is not there. */
  function PeriodEntry(rec: Record): Result<Option<Entry>> {
    if Has(rec, "start_date") then
      var start :- IsoFormat(Get(rec, "start_date").value);
      var period := [Entry("start", start)];
      if Has(rec, "end_date") then
        var end :- IsoFormat(Get(rec, "end_date").value);
        Ok(Some(Entry("effectivePeriod", PyDict(Set(period, "end", end)))))
      else Ok(Some(Entry("effectivePeriod", PyDict(period))))
    else if Has(rec, "end_date") then Err(KeyError("effectivePeriod"))
    else Ok(None)
  }

  /** {"url": url, "valueCodeableConcept": to_codeable_concept(v)} */
  function CodedExtension(url: string, v: Py): Result<Py> {
    var cc :- ToCodeableConcept(v);
    Ok(PyDict([Entry("url", PyStr(url)), Entry("valueCodeableConcept", cc)]))
  }

  /** The three ifs of to_patient that set "extension": race alone, then
      ethnicity alone, then both; the last that applies wins, and the
      conversions raise in the order race, ethnicity. */
  function ExtensionEntry(rec: Record): Result<Option<Entry>> {
    if Has(rec, "race") then
      var race :- CodedExtension(RaceUrl, Get(rec, "race").value);
      if Has(rec, "ethnicity") then
        var ethnicity :- CodedExtension(EthnicityUrl, Get(rec, "ethnicity").value);
        Ok(Some(Entry("extension", PyList([ethnicity, race]))))
      else Ok(Some(Entry("extension", PyList([race]))))
    else if Has(rec, "ethnicity") then
      var ethnicity :- CodedExtension(EthnicityUrl, Get(rec, "ethnicity").value);
      Ok(Some(Entry("extension", PyList([ethnicity]))))
    else Ok(None)
  }

  /** isinstance(value, (int, float)); a bool is an int. */
  predicate Numeric(v: Py) {
    v.PyInt? || v.PyFloat? || v.PyBool?
  }

  /** The value of an observation that is not a number: a tuple as a
      simple quantity, a list as a codeable concept, a str as a string;
      anything else is left out. */
  function OtherValueEntry(v: Py): (r: Result<Option<Entry>>)
    requires !Numeric(v)
    ensures r.Ok? && r.value.Some? ==> r.value.value.key in ["valueQuantity", "valueCodeableConcept", "valueString"]
    ensures v.PyStr? ==> r == Ok(Some(Entry("valueString", v)))
    ensures !v.PyTuple? && !v.PyList? && !v.PyStr? ==> r == Ok(None)
  {
    if v.PyTuple? then
      var q :- ToSimpleQuantity(v);
      Ok(Some(Entry("valueQuantity", q)))
    else if v.PyList? then
      var cc :- ToCodeableConcept(v);
      Ok(Some(Entry("valueCodeableConcept", cc)))
    else if v.PyStr? then Ok(Some(Entry("valueString", v)))
    else Ok(None)
  }

  /** The value of an observation as to_observation inserts it: a number
      goes to to_simple_quantity itself, which unpacks it. */
  function ValueEntry(v: Py): (r: Result<Option<Entry>>)
    ensures r.Ok? && r.value.Some? ==> r.value.value.key in ["valueQuantity", "valueCodeableConcept", "valueString"]
  {
    if Numeric(v) then
      var q :- ToSimpleQuantity(v);
      Ok(Some(Entry("valueQuantity", q)))
    else OtherValueEntry(v)
  }

  /** The value as evidently intended: a number becomes the simple quantity
      of the tuple (v, None, None, None). */
  function IntendedValueEntry(v: Py): (r: Result<Option<Entry>>)
    ensures r.Ok? && r.value.Some? ==> r.value.value.key in ["valueQuantity", "valueCodeableConcept", "valueString"]
  {
    if Numeric(v) then
      var q :- ToSimpleQuantity(PyTuple([v, PyNone, PyNone, PyNone]));
      Ok(Some(Entry("valueQuantity", q)))
    else OtherValueEntry(v)
  }

  /** A number cannot be unpacked: every numeric value makes the value
      if-statement raise TypeError. */
  lemma NumericValueRaises(v: Py)
    requires Numeric(v)
    ensures ValueEntry(v) == Err(TypeError)
  {
  }

  /** The intended quantity of a number holds that number as its value and
      nothing else. */
  lemma NumericValueQuantity(v: Py)
    requires Numeric(v) && Truthy(v)
    ensures IntendedValueEntry(v).Ok? && IntendedValueEntry(v).value.Some?
    ensures IntendedValueEntry(v).value.value.key == "valueQuantity"
    ensures IntendedValueEntry(v).value.value.value == PyDict([Entry("value", v)])
  {
    var t := PyTuple([v, PyNone, PyNone, PyNone]);
    SimpleQuantityMeaning(t);
    QuantityMeaning(PyTuple([v, PyNone, PyNone, PyNone, PyNone]));
    var f := [v, PyNone, PyNone, PyNone, PyNone];
    assert Filled(QuantityKeys, f) == [Entry("value", v)] by {
      assert QuantityKeys[1..][1..][1..][1..][1..] == [];
      assert f[1..][1..][1..][1..][1..] == [];
    }
  }

  /** What one step inserts, if anything. */
  function StepEntry(rec: Record, s: Step): (r: Result<Option<Entry>>)
    ensures r.Ok? && r.value.Some? ==> r.value.value.key in StepKeys(s)
  {
    match s
    case Copy(field, key, conv) =>
      if Has(rec, field) then var c :- Convert(conv, Get(rec, field).value); Ok(Some(Entry(key, c)))
      else Ok(None)
    case Subject(displayAsStr) => SubjectEntry(rec, displayAsStr)
    case Period => PeriodEntry(rec)
    case Extension => ExtensionEntry(rec)
    case ObservationValue(intended) =>
      if !Has(rec, "value") then Ok(None)
      else if intended then IntendedValueEntry(Get(rec, "value").value)
      else ValueEntry(Get(rec, "value").value)
    case Strict(test, field, key, conv) =>
      var t :- Field(rec, test);
      if Truthy(t) then
        var v :- Field(rec, field);
        var c :- Convert(conv, v);
        Ok(Some(Entry(key, c)))
      else Ok(None)
    case LegacyObservationValue =>
      var v :- Field(rec, "value");
      if !Truthy(v) then Ok(None)
      else if v.PyInt? || v.PyFloat? then Ok(Some(Entry("valueQuantity", PyDict([Entry("value", v)]))))
      else Ok(Some(Entry("valueString", v)))
  }

  /** What each step inserts for one record. */
  function Inserts(rec: Record): Step -> Result<Option<Entry>> {
    s => StepEntry(rec, s)
  }

  /** The steps run in order over the dict d, each inserting what entry
      gives for it; the first step that raises ends the run. */
  function Run(entry: Step -> Result<Option<Entry>>, d: seq<Entry>, steps: seq<Step>): Result<seq<Entry>>
    decreases |steps|
  {
    if steps == [] then Ok(d)
    else
      var e :- entry(steps[0]);
      var d' := if e.Some? then Set(d, e.value.key, e.value.value) else d;
      Run(entry, d', steps[1..])
  }

  /** The keys all the steps may insert. */
  function AllKeys(steps: seq<Step>): seq<string> {
    if steps == [] then [] else StepKeys(steps[0]) + AllKeys(steps[1..])
  }

  function Listed(e: Option<Entry>): seq<Entry> {
    if e.Some? then [e.value] else []
  }

  /** What the steps insert, in order, when every key is new. */
  function Produced(entry: Step -> Result<Option<Entry>>, steps: seq<Step>): Result<seq<Entry>> {
    if steps == [] then Ok([])
    else
      var e :- entry(steps[0]);
      var rest :- Produced(entry, steps[1..]);
      Ok(Listed(e) + rest)
  }

  /** The value e holds for k, if any. */
  function Yield(e: Option<Entry>, k: string): Option<Py> {
    if e.Some? && e.value.key == k then Some(e.value.value) else None
  }

  /** What a step inserts goes under one of its keys. */
  predicate Within(e: Result<Option<Entry>>, s: Step) {
    e.Ok? && e.value.Some? ==> e.value.value.key in StepKeys(s)
  }

  predicate Keyed(entry: Step -> Result<Option<Entry>>, steps: seq<Step>) {
    forall i :: 0 <= i < |steps| ==> Within(entry(steps[i]), steps[i])
  }

  lemma InsertsKeyed(rec: Record, steps: seq<Step>)
    ensures Keyed(Inserts(rec), steps)
  {
    forall i | 0 <= i < |steps|
      ensures Within(Inserts(rec)(steps[i]), steps[i])
    {
      var e := StepEntry(rec, steps[i]);
    }
  }

  lemma KeyedTail(entry: Step -> Result<Option<Entry>>, steps: seq<Step>)
    requires steps != [] && Keyed(entry, steps)
    ensures Within(entry(steps[0]), steps[0])
    ensures Keyed(entry, steps[1..])
  {
    forall i | 0 <= i < |steps| - 1
      ensures Within(entry(steps[1..][i]), steps[1..][i])
    {
      assert steps[1..][i] == steps[i + 1];
    }
  }

  lemma DistinctAppend(a: seq<string>, b: seq<string>)
    requires Distinct(a + b)
    ensures Distinct(b)
    ensures forall x :: x in a ==> x !in b
  {
    forall i, j | 0 <= i < j < |b|
      ensures KeyAt(b, i) != KeyAt(b, j)
    {
      assert KeyAt(a + b, |a| + i) != KeyAt(a + b, |a| + j);
    }
    forall x | x in a
      ensures x !in b
    {
      var i :| 0 <= i < |a| && a[i] == x;
      forall j | 0 <= j < |b|
        ensures b[j] != x
      {
        assert KeyAt(a + b, i) != KeyAt(a + b, |a| + j);
      }
    }
  }

  lemma {:induction false} StepKeyListed(steps: seq<Step>, i: nat, k: string)
    requires i < |steps| && k in StepKeys(steps[i])
    ensures k in AllKeys(steps)
    ensures i > 0 ==> k in AllKeys(steps[1..])
  {
    if i > 0 {
      assert steps[1..][i - 1] == steps[i];
      StepKeyListed(steps[1..], i - 1, k);
    }
  }

  /** Steps whose keys are distinct and new to d append what they produce:
      the run fails exactly when a step raises, with that step's error. */
  lemma {:induction false} RunFresh(entry: Step -> Result<Option<Entry>>, d: seq<Entry>, steps: seq<Step>)
    requires Keyed(entry, steps) && Distinct(AllKeys(steps))
    requires forall k :: k in AllKeys(steps) ==> Get(d, k) == None
    ensures Run(entry, d, steps).Ok? == Produced(entry, steps).Ok?
    ensures Run(entry, d, steps).Ok? ==> Run(entry, d, steps).value == d + Produced(entry, steps).value
    ensures Run(entry, d, steps).Err? ==> Run(entry, d, steps).error == Produced(entry, steps).error
    decreases |steps|
  {
    if steps != [] {
      var e := entry(steps[0]);
      if e.Ok? {
        var rest := steps[1..];
        KeyedTail(entry, steps);
        DistinctAppend(StepKeys(steps[0]), AllKeys(rest));
        var d' := Listed(e.value);
        if e.value.Some? {
          SetFresh(d, e.value.value.key, e.value.value.value);
        } else {
          assert d + d' == d;
        }
        forall k | k in AllKeys(rest)
          ensures Get(d + d', k) == None
        {
          GetAppend(d, d', k);
        }
        RunFresh(entry, d + d', rest);
        if Produced(entry, rest).Ok? {
          AppendAssoc(d, d', Produced(entry, rest).value);
        }
      }
    }
  }

  /** A run succeeds exactly when no step raises. */
  lemma {:induction false} ProducedOk(entry: Step -> Result<Option<Entry>>, steps: seq<Step>)
    ensures Produced(entry, steps).Ok? <==> forall i :: 0 <= i < |steps| ==> entry(steps[i]).Ok?
  {
    if steps != [] {
      ProducedOk(entry, steps[1..]);
      assert forall i :: 1 <= i < |steps| ==> steps[i] == steps[1..][i - 1];
    }
  }

  /** A run inserts nothing exactly when no step inserts anything. */
  lemma {:induction false} ProducedNothing(entry: Step -> Result<Option<Entry>>, steps: seq<Step>)
    requires Produced(entry, steps).Ok?
    ensures Produced(entry, steps).value == [] <==> forall i :: 0 <= i < |steps| ==> entry(steps[i]) == Ok(None)
  {
    if steps != [] {
      ProducedNothing(entry, steps[1..]);
      assert forall i :: 1 <= i < |steps| ==> steps[i] == steps[1..][i - 1];
    }
  }

  lemma {:induction false} ProducedOther(entry: Step -> Result<Option<Entry>>, steps: seq<Step>, k: string)
    requires Keyed(entry, steps) && Produced(entry, steps).Ok?
    requires k !in AllKeys(steps)
    ensures Get(Produced(entry, steps).value, k) == None
  {
    if steps != [] {
      var e := entry(steps[0]).value;
      KeyedTail(entry, steps);
      ProducedOther(entry, steps[1..], k);
      ListedGet(e, k);
      GetAppend(Listed(e), Produced(entry, steps[1..]).value, k);
    }
  }

  lemma ListedGet(e: Option<Entry>, k: string)
    ensures Get(Listed(e), k) == Yield(e, k)
  {
    if e.Some? {
      assert Listed(e)[1..] == [];
    }
  }

  /** Each key holds what the one step that may insert it inserts. */
  lemma {:induction false} ProducedGet(entry: Step -> Result<Option<Entry>>, steps: seq<Step>, i: nat, k: string)
    requires Keyed(entry, steps) && Distinct(AllKeys(steps)) && Produced(entry, steps).Ok?
    requires i < |steps| && k in StepKeys(steps[i])
    ensures entry(steps[i]).Ok?
    ensures Get(Produced(entry, steps).value, k) == Yield(entry(steps[i]).value, k)
  {
    var e := entry(steps[0]).value;
    var rest := steps[1..];
    KeyedTail(entry, steps);
    DistinctAppend(StepKeys(steps[0]), AllKeys(rest));
    GetAppend(Listed(e), Produced(entry, rest).value, k);
    ListedGet(e, k);
    if i == 0 {
      ProducedOther(entry, rest, k);
    } else {
      StepKeyListed(steps, i, k);
      assert k !in StepKeys(steps[0]);
      assert rest[i - 1] == steps[i];
      ProducedGet(entry, rest, i - 1, k);
    }
  }

  /** The header every resource starts with. */
  function Header(id: Py, resourceType: string): seq<Entry> {
    [Entry("id", id), Entry("resourceType", PyStr(resourceType))]
  }

  /** result = {}; result["id"] = rec["id"]; result["resourceType"] = type;
      followed by the steps. */
  function Resource(rec: Record, resourceType: string, steps: seq<Step>): Result<seq<Entry>> {
    var id :- Field(rec, "id");
    Run(Inserts(rec), Header(id, resourceType), steps)
  }

  /** Distinct keys other than id and resourceType stay distinct after the
      header's. */
  lemma HeaderKeys(keys: seq<string>)
    requires Distinct(keys) && "id" !in keys && "resourceType" !in keys
    ensures Distinct(["id", "resourceType"] + keys)
  {
    var all := ["id", "resourceType"] + keys;
    forall i, j | 0 <= i < j < |all|
      ensures KeyAt(all, i) != KeyAt(all, j)
    {
      if i >= 2 {
        assert KeyAt(keys, i - 2) != KeyAt(keys, j - 2);
      } else if j >= 2 {
        assert all[j] == keys[j - 2];
      }
    }
  }

  /** The keys after id and resourceType are missing from the header. */
  lemma HeaderFresh(id: Py, resourceType: string, keys: seq<string>)
    requires Distinct(["id", "resourceType"] + keys)
    ensures forall k :: k in keys ==> Get(Header(id, resourceType), k) == None
  {
    DistinctAppend(["id", "resourceType"], keys);
    var h := Header(id, resourceType);
    assert "id" in ["id", "resourceType"] && "resourceType" in ["id", "resourceType"];
    forall k | k in keys
      ensures Get(h, k) == None
    {
      assert k != "id" && k != "resourceType";
      assert h[1..][1..] == [];
      assert Get(h[1..], k) == Get(h[1..][1..], k) == None;
    }
  }

  /** A resource whose steps insert distinct keys other than id and
      resourceType is its header followed by what the steps produce, in
      order; it raises KeyError("id") without an id and otherwise exactly
      when a step raises. */
  lemma ResourceMeaning(rec: Record, resourceType: string, steps: seq<Step>)
    requires Distinct(["id", "resourceType"] + AllKeys(steps))
    ensures Get(rec, "id").None? ==> Resource(rec, resourceType, steps) == Err(KeyError("id"))
    ensures Resource(rec, resourceType, steps).Ok? <==>
      Get(rec, "id").Some? && forall i :: 0 <= i < |steps| ==> StepEntry(rec, steps[i]).Ok?
    ensures Resource(rec, resourceType, steps).Ok? ==>
      && Produced(Inserts(rec), steps).Ok?
      && Resource(rec, resourceType, steps).value == Header(Get(rec, "id").value, resourceType) + Produced(Inserts(rec), steps).value
  {
    ProducedOk(Inserts(rec), steps);
    assert forall i :: 0 <= i < |steps| ==> Inserts(rec)(steps[i]) == StepEntry(rec, steps[i]);
    if Get(rec, "id").Some? {
      var h := Header(Get(rec, "id").value, resourceType);
      HeaderFresh(Get(rec, "id").value, resourceType, AllKeys(steps));
      DistinctAppend(["id", "resourceType"], AllKeys(steps));
      InsertsKeyed(rec, steps);
      RunFresh(Inserts(rec), h, steps);
    }
  }

  /** In a resource, id and resourceType hold the record's id and the
      type, and each key a step may insert holds what that step inserts. */
  lemma ResourceGet(rec: Record, resourceType: string, steps: seq<Step>, i: nat, k: string)
    requires Distinct(["id", "resourceType"] + AllKeys(steps))
    requires Resource(rec, resourceType, steps).Ok?
    requires i < |steps| && k in StepKeys(steps[i])
    ensures StepEntry(rec, steps[i]).Ok?
    ensures Get(Resource(rec, resourceType, steps).value, k) == Yield(StepEntry(rec, steps[i]).value, k)
  {
    ResourceMeaning(rec, resourceType, steps);
    DistinctAppend(["id", "resourceType"], AllKeys(steps));
    InsertsKeyed(rec, steps);
    var h := Header(Get(rec, "id").value, resourceType);
    var p := Produced(Inserts(rec), steps).value;
    StepKeyListed(steps, i, k);
    GetAppend(h, p, k);
    ProducedGet(Inserts(rec), steps, i, k);
    assert Inserts(rec)(steps[i]) == StepEntry(rec, steps[i]);
  }

  /** Each step of again is the step of steps at its index in at. */
  predicate Repeated(steps: seq<Step>, again: seq<Step>, at: seq<nat>) {
    |at| == |again| && forall j :: 0 <= j < |at| ==> at[j] < |steps| && steps[at[j]] == again[j]
  }

  /** Steps run again over a resource, each a copy of the step at its
      index in at, change nothing: they raise nothing and set each key to
      the value it already holds. */
  lemma ResourceIdle(rec: Record, resourceType: string, steps: seq<Step>, again: seq<Step>, at: seq<nat>)
    requires Distinct(["id", "resourceType"] + AllKeys(steps))
    requires Resource(rec, resourceType, steps).Ok?
    requires Repeated(steps, again, at)
    ensures Run(Inserts(rec), Resource(rec, resourceType, steps).value, again) == Ok(Resource(rec, resourceType, steps).value)
  {
    var h := Header(Get(rec, "id").value, resourceType);
    HeaderFresh(Get(rec, "id").value, resourceType, AllKeys(steps));
    DistinctAppend(["id", "resourceType"], AllKeys(steps));
    InsertsKeyed(rec, steps);
    RunAgain(Inserts(rec), h, steps, again, at);
  }

  /** Running again steps that already ran, with distinct fresh keys,
      changes nothing. */
  lemma RunAgain(entry: Step -> Result<Option<Entry>>, d: seq<Entry>, steps: seq<Step>, again: seq<Step>, at: seq<nat>)
    requires Keyed(entry, steps) && Distinct(AllKeys(steps))
    requires forall k :: k in AllKeys(steps) ==> Get(d, k) == None
    requires Run(entry, d, steps).Ok?
    requires Repeated(steps, again, at)
    ensures Run(entry, Run(entry, d, steps).value, again) == Run(entry, d, steps)
  {
    var r := Run(entry, d, steps).value;
    forall j | 0 <= j < |again|
      ensures entry(again[j]).Ok? && Settled(r, entry(again[j]).value)
    {
      RunSettled(entry, d, steps, at[j]);
    }
    RunIdle(entry, r, again);
  }

  /** A run of steps with distinct fresh keys ends holding what each of
      them inserts. */
  lemma RunSettled(entry: Step -> Result<Option<Entry>>, d: seq<Entry>, steps: seq<Step>, i: nat)
    requires Keyed(entry, steps) && Distinct(AllKeys(steps))
    requires forall k :: k in AllKeys(steps) ==> Get(d, k) == None
    requires Run(entry, d, steps).Ok? && i < |steps|
    ensures entry(steps[i]).Ok?
    ensures Settled(Run(entry, d, steps).value, entry(steps[i]).value)
  {
    RunFresh(entry, d, steps);
    ProducedOk(entry, steps);
    var e := entry(steps[i]).value;
    if e.Some? {
      var k := e.value.key;
      assert Within(entry(steps[i]), steps[i]);
      ProducedGet(entry, steps, i, k);
      StepKeyListed(steps, i, k);
      GetAppend(d, Produced(entry, steps).value, k);
    }
  }

  /** A resource holds the record's id and its type. */
  lemma ResourceHeader(rec: Record, resourceType: string, steps: seq<Step>)
    requires Distinct(["id", "resourceType"] + AllKeys(steps))
    requires Resource(rec, resourceType, steps).Ok?
    ensures Get(Resource(rec, resourceType, steps).value, "id") == Get(rec, "id")
    ensures Get(Resource(rec, resourceType, steps).value, "resourceType") == Some(PyStr(resourceType))
  {
    ResourceMeaning(rec, resourceType, steps);
    var h := Header(Get(rec, "id").value, resourceType);
    var p := Produced(Inserts(rec), steps).value;
    GetAppend(h, p, "id");
    GetAppend(h, p, "resourceType");
  }

  /** The field of a Copy step converts when the record has it. */
  predicate Converts(rec: Record, s: Step)
    requires s.Copy?
  {
    Has(rec, s.field) ==> Convert(s.conv, Get(rec, s.field).value).Ok?
  }

  /** A step does not raise: for a Copy step, its field converts. */
  predicate StepOk(rec: Record, s: Step) {
    if s.Copy? then Converts(rec, s) else StepEntry(rec, s).Ok?
  }

  /** What a Copy step leaves under its key: the converted field when the
      record has it, nothing otherwise. */
  predicate Copied(rec: Record, r: seq<Entry>, s: Step)
    requires s.Copy?
  {
    if Has(rec, s.field) then
      Convert(s.conv, Get(rec, s.field).value).Ok? && Get(r, s.key) == Some(Convert(s.conv, Get(rec, s.field).value).value)
    else Get(r, s.key) == None
  }

  /** The dict a builder returns: the record's id, the type, and every Copy
      step's key holding what that step inserts. */
  predicate Built(rec: Record, r: Py, resourceType: string, steps: seq<Step>) {
    && r.PyDict?
    && Get(r.entries, "id") == Get(rec, "id")
    && Get(r.entries, "resourceType") == Some(PyStr(resourceType))
    && CopiedAll(rec, r.entries, steps)
  }

  /** Every Copy step's key holds what that step inserts. */
  predicate CopiedAll(rec: Record, r: seq<Entry>, steps: seq<Step>) {
    forall i :: 0 <= i < |steps| && steps[i].Copy? ==> Copied(rec, r, steps[i])
  }

  lemma StepOkEntry(rec: Record, s: Step)
    ensures StepOk(rec, s) <==> StepEntry(rec, s).Ok?
  {
  }

  /** A resource raises KeyError("id") without an id, succeeds exactly when
      no step raises, and then is built as its steps say. */
  lemma ResourceBuilt(rec: Record, resourceType: string, steps: seq<Step>)
    requires Distinct(["id", "resourceType"] + AllKeys(steps))
    ensures Get(rec, "id").None? ==> Resource(rec, resourceType, steps) == Err(KeyError("id"))
    ensures Resource(rec, resourceType, steps).Ok? <==>
      Get(rec, "id").Some? && forall i :: 0 <= i < |steps| ==> StepOk(rec, steps[i])
    ensures Resource(rec, resourceType, steps).Ok? ==>
      Built(rec, PyDict(Resource(rec, resourceType, steps).value), resourceType, steps)
  {
    ResourceMeaning(rec, resourceType, steps);
    forall i | 0 <= i < |steps|
      ensures StepOk(rec, steps[i]) <==> StepEntry(rec, steps[i]).Ok?
    {
      StepOkEntry(rec, steps[i]);
    }
    if Resource(rec, resourceType, steps).Ok? {
      var r := Resource(rec, resourceType, steps).value;
      ResourceHeader(rec, resourceType, steps);
      forall i | 0 <= i < |steps| && steps[i].Copy?
        ensures Copied(rec, r, steps[i])
      {
        ResourceGet(rec, resourceType, steps, i, steps[i].key);
      }
    }
  }

  /** Steps run over a dict that lacks their keys: they raise exactly when
      one of them does, and otherwise every Copy step's key holds what it
      inserts, every other key keeps its value, and the entries are
      appended. */
  lemma RunCopies(rec: Record, d: seq<Entry>, steps: seq<Step>)
    requires Distinct(AllKeys(steps))
    requires forall k :: k in AllKeys(steps) ==> Get(d, k) == None
    ensures Run(Inserts(rec), d, steps).Ok? <==> forall i :: 0 <= i < |steps| ==> StepOk(rec, steps[i])
    ensures Run(Inserts(rec), d, steps).Ok? ==>
      && CopiedAll(rec, Run(Inserts(rec), d, steps).value, steps)
      && (forall k :: k !in AllKeys(steps) ==> Get(Run(Inserts(rec), d, steps).value, k) == Get(d, k))
  {
    InsertsKeyed(rec, steps);
    RunFresh(Inserts(rec), d, steps);
    ProducedOk(Inserts(rec), steps);
    forall i | 0 <= i < |steps|
      ensures StepOk(rec, steps[i]) <==> Inserts(rec)(steps[i]).Ok?
    {
      StepOkEntry(rec, steps[i]);
    }
    if Run(Inserts(rec), d, steps).Ok? {
      var p := Produced(Inserts(rec), steps).value;
      forall i | 0 <= i < |steps| && steps[i].Copy?
        ensures Copied(rec, d + p, steps[i])
      {
        var k := steps[i].key;
        StepKeyListed(steps, i, k);
        ProducedGet(Inserts(rec), steps, i, k);
        GetAppend(d, p, k);
      }
      forall k | k !in AllKeys(steps)
        ensures Get(d + p, k) == Get(d, k)
      {
        ProducedOther(Inserts(rec), steps, k);
        GetAppend(d, p, k);
      }
    }
  }

  /** Every step is a Copy step. */
  predicate AllCopies(steps: seq<Step>) {
    forall i :: 0 <= i < |steps| ==> steps[i].Copy?
  }

  /** The keys of Copy steps are listed in step order. */
  lemma {:induction false} CopyKeyAt(steps: seq<Step>, j: nat)
    requires AllCopies(steps) && j < |steps|
    ensures j < |AllKeys(steps)| && AllKeys(steps)[j] == steps[j].key
  {
    if j > 0 {
      assert AllCopies(steps[1..]) by {
        forall i | 0 <= i < |steps| - 1 ensures steps[1..][i].Copy? {
          assert steps[1..][i] == steps[i + 1];
        }
      }
      assert steps[1..][j - 1] == steps[j];
      CopyKeyAt(steps[1..], j - 1);
    }
  }

  /** Copy steps with distinct keys: each key belongs to one step. */
  lemma CopyKeysDiffer(steps: seq<Step>, i: nat, j: nat)
    requires AllCopies(steps) && Distinct(AllKeys(steps))
    requires i < |steps| && j < |steps| && i != j
    ensures steps[i].key != steps[j].key
  {
    CopyKeyAt(steps, i);
    CopyKeyAt(steps, j);
    var keys := AllKeys(steps);
    if i < j {
      assert KeyAt(keys, i) != KeyAt(keys, j);
    } else {
      assert KeyAt(keys, j) != KeyAt(keys, i);
    }
  }

  /** A dict whose key k holds what step i inserts under its own key, and
      which agrees with r on the other keys, shows the steps with step i's
      key renamed to k. */
  lemma CopiedMoved(rec: Record, r: seq<Entry>, r': seq<Entry>, steps: seq<Step>, i: nat, k: string)
    requires AllCopies(steps) && Distinct(AllKeys(steps)) && i < |steps|
    requires CopiedAll(rec, r, steps)
    requires Get(r', k) == Get(r, steps[i].key)
    requires forall k' :: k' in AllKeys(steps) && k' != steps[i].key ==> Get(r', k') == Get(r, k')
    ensures CopiedAll(rec, r', steps[i := Copy(steps[i].field, k, steps[i].conv)])
  {
    var moved := steps[i := Copy(steps[i].field, k, steps[i].conv)];
    forall j | 0 <= j < |moved| && moved[j].Copy?
      ensures Copied(rec, r', moved[j])
    {
      assert Copied(rec, r, steps[j]);
      if j != i {
        CopyKeysDiffer(steps, i, j);
        StepKeyListed(steps, j, steps[j].key);
      }
    }
  }


  /** The record has the field of one of the Copy steps. */
  predicate AnyField(rec: Record, steps: seq<Step>) {
    exists i :: 0 <= i < |steps| && steps[i].Copy? && Has(rec, steps[i].field)
  }

  /** A Copy step that does not raise inserts nothing exactly when the
      record lacks its field. */
  lemma CopyNothing(rec: Record, s: Step)
    requires s.Copy? && StepEntry(rec, s).Ok?
    ensures StepEntry(rec, s) == Ok(None) <==> !Has(rec, s.field)
  {
  }

  /** Copy steps with distinct keys run over an empty dict leave it empty
      exactly when the record has none of their fields. */
  lemma RunCopiesEmpty(rec: Record, steps: seq<Step>)
    requires AllCopies(steps) && Distinct(AllKeys(steps))
    requires Run(Inserts(rec), [], steps).Ok?
    ensures Run(Inserts(rec), [], steps).value == [] <==> !AnyField(rec, steps)
  {
    InsertsKeyed(rec, steps);
    RunFresh(Inserts(rec), [], steps);
    ProducedOk(Inserts(rec), steps);
    ProducedNothing(Inserts(rec), steps);
    forall i | 0 <= i < |steps|
      ensures Inserts(rec)(steps[i]) == Ok(None) <==> !Has(rec, steps[i].field)
    {
      CopyNothing(rec, steps[i]);
    }
  }

  /** What such a run leaves has no key twice, and is empty exactly when
      the record has none of the steps' fields. */
  lemma CopiesEmpty(rec: Record, steps: seq<Step>)
    requires AllCopies(steps) && Distinct(AllKeys(steps))
    requires Run(Inserts(rec), [], steps).Ok?
    ensures Run(Inserts(rec), [], steps).value != [] <==> AnyField(rec, steps)
    ensures Unique(Run(Inserts(rec), [], steps).value)
  {
    RunCopiesEmpty(rec, steps);
    RunUnique(Inserts(rec), [], steps);
  }

  /** What Copy steps left survives changes to other keys. */
  lemma CopiedKept(rec: Record, r: seq<Entry>, r': seq<Entry>, steps: seq<Step>)
    requires CopiedAll(rec, r, steps)
    requires forall k :: k in AllKeys(steps) ==> Get(r', k) == Get(r, k)
    ensures CopiedAll(rec, r', steps)
  {
    forall i | 0 <= i < |steps| && steps[i].Copy?
      ensures Copied(rec, r', steps[i])
    {
      StepKeyListed(steps, i, steps[i].key);
    }
  }

  /** e inserts nothing new into d: d already holds its key and value. */
  predicate Settled(d: seq<Entry>, e: Option<Entry>) {
    e.Some? ==> Get(d, e.value.key) == Some(e.value.value)
  }

  /** Steps that insert only what the dict already holds leave it as it is. */
  lemma {:induction false} RunIdle(entry: Step -> Result<Option<Entry>>, d: seq<Entry>, steps: seq<Step>)
    requires forall i :: 0 <= i < |steps| ==> entry(steps[i]).Ok? && Settled(d, entry(steps[i]).value)
    ensures Run(entry, d, steps) == Ok(d)
    decreases |steps|
  {
    if steps != [] {
      var e := entry(steps[0]).value;
      if e.Some? {
        SetSame(d, e.value.key, e.value.value);
      }
      assert forall i :: 0 <= i < |steps| - 1 ==> steps[1..][i] == steps[i + 1];
      RunIdle(entry, d, steps[1..]);
    }
  }

  /** A run keeps a dict's keys unique. */
  lemma {:induction false} RunUnique(entry: Step -> Result<Option<Entry>>, d: seq<Entry>, steps: seq<Step>)
    requires Unique(d) && Run(entry, d, steps).Ok?
    ensures Unique(Run(entry, d, steps).value)
    decreases |steps|
  {
    if steps != [] {
      var e := entry(steps[0]).value;
      var d' := if e.Some? then Set(d, e.value.key, e.value.value) else d;
      RunUnique(entry, d', steps[1..]);
    }
  }

  /** Setting a key to the value it holds changes nothing. */
  lemma {:induction false} SetSame(d: seq<Entry>, k: string, v: Py)
    requires Get(d, k) == Some(v)
    ensures Set(d, k, v) == d
  {
    if d[0].key != k {
      SetSame(d[1..], k, v);
    }
  }

  /** Running two lists of steps is running the first, then the second
      over what it gives. */
  lemma {:induction false} RunAppend(entry: Step -> Result<Option<Entry>>, d: seq<Entry>, a: seq<Step>, b: seq<Step>)
    ensures Run(entry, d, a + b) == (var x :- Run(entry, d, a); Run(entry, x, b))
    decreases |a|
  {
    if a == [] {
      assert a + b == b;
    } else {
      assert (a + b)[0] == a[0] && (a + b)[1..] == a[1..] + b;
      var e := entry(a[0]);
      if e.Ok? {
        var d' := if e.value.Some? then Set(d, e.value.value.key, e.value.value.value) else d;
        RunAppend(entry, d', a[1..], b);
      }
    }
  }

  /** A run raises what its first raising step raises. */
  lemma {:induction false} RunRaises(entry: Step -> Result<Option<Entry>>, d: seq<Entry>, steps: seq<Step>, i: nat)
    requires i < |steps| && entry(steps[i]).Err?
    requires forall j :: 0 <= j < i ==> entry(steps[j]).Ok?
    ensures Run(entry, d, steps) == Err(entry(steps[i]).error)
    decreases i
  {
    if i > 0 {
      var e := entry(steps[0]).value;
      var d' := if e.Some? then Set(d, e.value.key, e.value.value) else d;
      assert forall j :: 0 <= j < |steps| - 1 ==> steps[1..][j] == steps[j + 1];
      RunRaises(entry, d', steps[1..], i - 1);
    }
  }

  /** A resource with an id raises what its first raising step raises. */
  lemma ResourceRaises(rec: Record, resourceType: string, steps: seq<Step>, i: nat)
    requires Get(rec, "id").Some?
    requires i < |steps| && StepEntry(rec, steps[i]).Err?
    requires forall j :: 0 <= j < i ==> StepOk(rec, steps[j])
    ensures Resource(rec, resourceType, steps) == Err(StepEntry(rec, steps[i]).error)
  {
    forall j | 0 <= j < i
      ensures Inserts(rec)(steps[j]).Ok?
    {
      StepOkEntry(rec, steps[j]);
    }
    RunRaises(Inserts(rec), Header(Get(rec, "id").value, resourceType), steps, i);
  }

  /** effectivePeriod: an end needs a start; the start and the end must be
      dates; the period holds the start and then the end. */
  lemma PeriodMeaning(rec: Record)
    ensures Has(rec, "end_date") && !Has(rec, "start_date") ==> PeriodEntry(rec) == Err(KeyError("effectivePeriod"))
    ensures PeriodEntry(rec).Ok? <==>
      && (Has(rec, "start_date") ==> Get(rec, "start_date").value.PyDate?)
      && (Has(rec, "end_date") ==> Has(rec, "start_date") && Get(rec, "end_date").value.PyDate?)
    ensures PeriodEntry(rec).Ok? && Has(rec, "start_date") ==>
      PeriodEntry(rec).value == Some(Entry("effectivePeriod", PyDict(
        [Entry("start", PyStr(Get(rec, "start_date").value.iso))] +
        (if Has(rec, "end_date") then [Entry("end", PyStr(Get(rec, "end_date").value.iso))] else []))))
    ensures PeriodEntry(rec).Ok? && !Has(rec, "start_date") ==> PeriodEntry(rec).value == None
  {
    if Has(rec, "start_date") && PeriodEntry(rec).Ok? {
      var start := [Entry("start", PyStr(Get(rec, "start_date").value.iso))];
      if Has(rec, "end_date") {
        var end := Entry("end", PyStr(Get(rec, "end_date").value.iso));
        SetFresh(start, "end", end.value);
        assert PeriodEntry(rec).value == Some(Entry("effectivePeriod", PyDict(start + [end])));
      } else {
        assert start + [] == start;
      }
    }
  }

  /** The subject: a str id becomes the reference "Patient/" + id, with the
      display when the record has one. */
  lemma SubjectMeaning(rec: Record, displayAsStr: bool)
    ensures SubjectEntry(rec, displayAsStr).Ok? <==> (Has(rec, "subject") ==> Get(rec, "subject").value.PyStr?)
    ensures SubjectEntry(rec, displayAsStr).Err? ==> SubjectEntry(rec, displayAsStr).error == TypeError
    ensures SubjectEntry(rec, displayAsStr).Ok? && Has(rec, "subject") ==>
      SubjectEntry(rec, displayAsStr).value == Some(Entry("subject", PyDict(
        [Entry("reference", PyStr("Patient/" + Get(rec, "subject").value.s))] +
        (if Has(rec, "subject_display") then [Entry("display", Displayed(Get(rec, "subject_display").value, displayAsStr))] else []))))
    ensures SubjectEntry(rec, displayAsStr).Ok? && !Has(rec, "subject") ==> SubjectEntry(rec, displayAsStr).value == None
  {
    if Has(rec, "subject") && Get(rec, "subject").value.PyStr? {
      var reference := [Entry("reference", PyStr("Patient/" + Get(rec, "subject").value.s))];
      if Has(rec, "subject_display") {
        var display := Entry("display", Displayed(Get(rec, "subject_display").value, displayAsStr));
        assert reference + [display] == [reference[0], display];
      } else {
        assert reference + [] == reference;
      }
    }
  }

  /** The subject a resource shows for the record: the reference to a str
      id, with the display when there is one; nothing without a subject. */
  predicate SubjectShown(rec: Record, r: seq<Entry>, displayAsStr: bool) {
    if Has(rec, "subject") then
      && Get(rec, "subject").value.PyStr?
      && Get(r, "subject") == Some(PyDict(
           [Entry("reference", PyStr("Patient/" + Get(rec, "subject").value.s))] +
           (if Has(rec, "subject_display") then [Entry("display", Displayed(Get(rec, "subject_display").value, displayAsStr))] else [])))
    else Get(r, "subject") == None
  }

  /** The period a resource shows for the record: the start date, then the
      end date when there is one; nothing without a start. */
  predicate PeriodShown(rec: Record, r: seq<Entry>) {
    if Has(rec, "start_date") then
      && Get(rec, "start_date").value.PyDate?
      && (Has(rec, "end_date") ==> Get(rec, "end_date").value.PyDate?)
      && Get(r, "effectivePeriod") == Some(PyDict(
           [Entry("start", PyStr(Get(rec, "start_date").value.iso))] +
           (if Has(rec, "end_date") then [Entry("end", PyStr(Get(rec, "end_date").value.iso))] else [])))
    else !Has(rec, "end_date") && Get(r, "effectivePeriod") == None
  }

  /** A dict whose subject is what SubjectEntry inserts shows the subject. */
  lemma SubjectShownFrom(rec: Record, r: seq<Entry>, displayAsStr: bool)
    requires SubjectEntry(rec, displayAsStr).Ok?
    requires Get(r, "subject") == Yield(SubjectEntry(rec, displayAsStr).value, "subject")
    ensures SubjectShown(rec, r, displayAsStr)
  {
    SubjectMeaning(rec, displayAsStr);
  }

  /** A dict whose period is what PeriodEntry inserts shows the period. */
  lemma PeriodShownFrom(rec: Record, r: seq<Entry>)
    requires PeriodEntry(rec).Ok?
    requires Get(r, "effectivePeriod") == Yield(PeriodEntry(rec).value, "effectivePeriod")
    ensures PeriodShown(rec, r)
  {
    PeriodMeaning(rec);
  }

  /** What a Strict step leaves under its key: the converted field when
      the tested field is truthy, nothing when it is falsy; both fields are
      read with rec[field], so the tested one must exist. */
  predicate Tested(rec: Record, r: seq<Entry>, s: Step)
    requires s.Strict?
  {
    && Get(rec, s.test).Some?
    && if Truthy(Get(rec, s.test).value) then
         && Get(rec, s.field).Some?
         && Convert(s.conv, Get(rec, s.field).value).Ok?
         && Get(r, s.key) == Some(Convert(s.conv, Get(rec, s.field).value).value)
       else Get(r, s.key) == None
  }

  /** Every Strict step's key holds what that step inserts. */
  predicate TestedAll(rec: Record, r: seq<Entry>, steps: seq<Step>) {
    forall i :: 0 <= i < |steps| && steps[i].Strict? ==> Tested(rec, r, steps[i])
  }

  /** A Strict step raises exactly when the tested field is missing, or it
      is truthy and the field it reads is missing or fails to convert. */
  lemma StrictOk(rec: Record, s: Step)
    requires s.Strict?
    ensures StepOk(rec, s) <==>
      && Get(rec, s.test).Some?
      && (Truthy(Get(rec, s.test).value) ==>
            Get(rec, s.field).Some? && Convert(s.conv, Get(rec, s.field).value).Ok?)
  {
  }

  /** A resource built with Strict steps shows each of them. */
  lemma ResourceTested(rec: Record, resourceType: string, steps: seq<Step>)
    requires Distinct(["id", "resourceType"] + AllKeys(steps))
    requires Resource(rec, resourceType, steps).Ok?
    ensures TestedAll(rec, Resource(rec, resourceType, steps).value, steps)
  {
    forall i | 0 <= i < |steps| && steps[i].Strict?
      ensures Tested(rec, Resource(rec, resourceType, steps).value, steps[i])
    {
      ResourceGet(rec, resourceType, steps, i, steps[i].key);
    }
  }
}
