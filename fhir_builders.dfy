/** The resource builders of fhir_petl/fhir.py: each turns one petl record
    into the dict of one FHIR resource. */
module FhirBuilders {
  import opened Outcomes
  import opened PyValues
  import opened FhirTypes
  import opened FhirResources
  import opened FhirDosage

  /** The ifs of to_procedure. */
  const ProcedureSteps: seq<Step> := [
    Copy("date", "performedDateTime", IsoDate),
    Copy("code", "code", Coded),
    Copy("subject", "subject", PatientReference),
    Copy("note", "note", NoteText)
  ]

  function ToProcedure(rec: Record): Result<Py> {
    var r :- Resource(rec, "Procedure", ProcedureSteps);
    Ok(PyDict(r))
  }

  /** to_procedure raises KeyError("id") without an id, raises exactly when
      a present field fails to convert, and otherwise inserts the date, the
      code, the subject reference and the note exactly when the record has
      them. */
  lemma ProcedureMeaning(rec: Record)
    ensures Get(rec, "id").None? ==> ToProcedure(rec) == Err(KeyError("id"))
    ensures ToProcedure(rec).Ok? <==>
      Get(rec, "id").Some? && forall i :: 0 <= i < |ProcedureSteps| ==> StepOk(rec, ProcedureSteps[i])
    ensures ToProcedure(rec).Ok? ==> Built(rec, ToProcedure(rec).value, "Procedure", ProcedureSteps)
  {
    ProcedureKeys();
    ProcedureNames(AllKeys(ProcedureSteps));
    ResourceBuilt(rec, "Procedure", ProcedureSteps);
  }

  lemma ProcedureKeys()
    ensures AllKeys(ProcedureSteps) == ["performedDateTime", "code", "subject", "note"]
  {
  }

  lemma ProcedureNames(keys: seq<string>)
    requires keys == ["performedDateTime", "code", "subject", "note"]
    ensures Distinct(["id", "resourceType"] + keys)
  {
    HeaderKeys(keys);
  }

  /** The ifs of to_condition. */
  const ConditionSteps: seq<Step> := [
    Copy("onset", "onsetDateTime", IsoDate),
    Copy("asserted", "assertedDate", IsoDate),
    Copy("code", "code", Coded),
    Copy("bodySite", "bodySite", CodedList),
    Copy("severity", "severity", Coded),
    Copy("subject", "subject", PatientReference),
    Copy("note", "note", NoteText),
    Copy("tag", "meta", MetaTag)
  ]

  function ToCondition(rec: Record): Result<Py> {
    var r :- Resource(rec, "Condition", ConditionSteps);
    Ok(PyDict(r))
  }

  /** to_condition inserts the onset and asserted dates, the code, the body
      site as a one-element list, the severity, the subject reference, the
      note and the tag exactly when the record has them. */
  lemma ConditionMeaning(rec: Record)
    ensures Get(rec, "id").None? ==> ToCondition(rec) == Err(KeyError("id"))
    ensures ToCondition(rec).Ok? <==>
      Get(rec, "id").Some? && forall i :: 0 <= i < |ConditionSteps| ==> StepOk(rec, ConditionSteps[i])
    ensures ToCondition(rec).Ok? ==> Built(rec, ToCondition(rec).value, "Condition", ConditionSteps)
  {
    ConditionKeys();
    ConditionNames(AllKeys(ConditionSteps));
    ResourceBuilt(rec, "Condition", ConditionSteps);
  }

  lemma ConditionKeys()
    ensures AllKeys(ConditionSteps) == ["onsetDateTime", "assertedDate", "code", "bodySite", "severity", "subject", "note", "meta"]
  {
  }

  lemma ConditionNames(keys: seq<string>)
    requires keys == ["onsetDateTime", "assertedDate", "code", "bodySite", "severity", "subject", "note", "meta"]
    ensures Distinct(["id", "resourceType"] + keys)
  {
    HeaderKeys(keys);
  }

  /** The ifs of to_med_dispense. */
  const MedDispenseSteps: seq<Step> := [
    Copy("date", "whenHandedOver", IsoDate),
    Copy("medication", "medicationCodeableConcept", Coded),
    Copy("subject", "subject", PatientReference),
    Copy("quantity", "quantity", ValueOnly),
    Copy("daysSupply", "daysSupply", Days),
    Copy("note", "note", NoteText)
  ]

  function ToMedDispense(rec: Record): Result<Py> {
    var r :- Resource(rec, "MedicationDispense", MedDispenseSteps);
    Ok(PyDict(r))
  }

  /** to_med_dispense inserts its fields exactly when the record has them;
      in particular daysSupply is the record's own daysSupply in days. */
  lemma MedDispenseMeaning(rec: Record)
    ensures Get(rec, "id").None? ==> ToMedDispense(rec) == Err(KeyError("id"))
    ensures ToMedDispense(rec).Ok? <==>
      Get(rec, "id").Some? && forall i :: 0 <= i < |MedDispenseSteps| ==> StepOk(rec, MedDispenseSteps[i])
    ensures ToMedDispense(rec).Ok? ==> Built(rec, ToMedDispense(rec).value, "MedicationDispense", MedDispenseSteps)
  {
    MedDispenseKeys();
    MedDispenseNames(AllKeys(MedDispenseSteps));
    ResourceBuilt(rec, "MedicationDispense", MedDispenseSteps);
  }

  /** In a dispense built from a record, daysSupply is the record's own
      daysSupply, in days. */
  lemma MedDispenseDaysSupply(rec: Record, r: Py)
    requires Built(rec, r, "MedicationDispense", MedDispenseSteps)
    ensures Has(rec, "daysSupply") ==>
      Get(r.entries, "daysSupply") ==
        Some(PyDict([Entry("value", Get(rec, "daysSupply").value), Entry("unit", PyStr("days"))]))
    ensures !Has(rec, "daysSupply") ==> Get(r.entries, "daysSupply") == None
  {
    var s := MedDispenseSteps[4];
    assert s == Copy("daysSupply", "daysSupply", Days);
    assert Copied(rec, r.entries, s);
  }

  lemma MedDispenseKeys()
    ensures AllKeys(MedDispenseSteps) == ["whenHandedOver", "medicationCodeableConcept", "subject", "quantity", "daysSupply", "note"]
  {
  }

  lemma MedDispenseNames(keys: seq<string>)
    requires keys == ["whenHandedOver", "medicationCodeableConcept", "subject", "quantity", "daysSupply", "note"]
    ensures Distinct(["id", "resourceType"] + keys)
  {
    HeaderKeys(keys);
  }

  /** The ifs of to_med_request. */
  const MedRequestSteps: seq<Step> := [
    Copy("date", "authoredOn", IsoDate),
    Copy("medication", "medicationCodeableConcept", Coded),
    Copy("subject", "subject", PatientReference),
    Copy("note", "note", NoteText),
    Copy("status", "status", AsIs)
  ]

  function ToMedRequest(rec: Record): Result<Py> {
    var r :- Resource(rec, "MedicationRequest", MedRequestSteps);
    Ok(PyDict(r))
  }

  /** to_med_request inserts the authoring date, the medication, the subject
      reference, the note and the status exactly when the record has them. */
  lemma MedRequestMeaning(rec: Record)
    ensures Get(rec, "id").None? ==> ToMedRequest(rec) == Err(KeyError("id"))
    ensures ToMedRequest(rec).Ok? <==>
      Get(rec, "id").Some? && forall i :: 0 <= i < |MedRequestSteps| ==> StepOk(rec, MedRequestSteps[i])
    ensures ToMedRequest(rec).Ok? ==> Built(rec, ToMedRequest(rec).value, "MedicationRequest", MedRequestSteps)
  {
    MedRequestKeys();
    MedRequestNames(AllKeys(MedRequestSteps));
    ResourceBuilt(rec, "MedicationRequest", MedRequestSteps);
  }

  lemma MedRequestKeys()
    ensures AllKeys(MedRequestSteps) == ["authoredOn", "medicationCodeableConcept", "subject", "note", "status"]
  {
  }

  lemma MedRequestNames(keys: seq<string>)
    requires keys == ["authoredOn", "medicationCodeableConcept", "subject", "note", "status"]
    ensures Distinct(["id", "resourceType"] + keys)
  {
    HeaderKeys(keys);
  }

  /** The ifs of to_patient; the three ifs that set "extension" are one
      step. */
  const PatientSteps: seq<Step> := [
    Copy("subject_id", "identifier", SubjectIdentifier),
    Extension,
    Copy("marital_status", "marital_status", Coded),
    Copy("gender", "gender", AsIs),
    Copy("birth_date", "birthDate", IsoDate),
    Copy("death_date", "deceasedDateTime", IsoDate),
    Copy("tag", "meta", MetaTag)
  ]

  function ToPatient(rec: Record): Result<Py> {
    var r :- Resource(rec, "Patient", PatientSteps);
    Ok(PyDict(r))
  }

  lemma PatientKeys()
    ensures AllKeys(PatientSteps) == ["identifier", "extension", "marital_status", "gender", "birthDate", "deceasedDateTime", "meta"]
  {
  }

  lemma PatientNames(keys: seq<string>)
    requires keys == ["identifier", "extension", "marital_status", "gender", "birthDate", "deceasedDateTime", "meta"]
    ensures Distinct(["id", "resourceType"] + keys)
  {
    HeaderKeys(keys);
  }

  /** The extension list of a patient: [race], [ethnicity], or
      [ethnicity, race] when the record has both, each converted with its
      own url; nothing when it has neither. */
  predicate ExtensionShown(rec: Record, r: seq<Entry>) {
    var race := CodedExtension(RaceUrl, if Has(rec, "race") then Get(rec, "race").value else PyNone);
    var ethnicity := CodedExtension(EthnicityUrl, if Has(rec, "ethnicity") then Get(rec, "ethnicity").value else PyNone);
    && (Has(rec, "race") ==> race.Ok?)
    && (Has(rec, "ethnicity") ==> ethnicity.Ok?)
    && Get(r, "extension") ==
      if Has(rec, "race") && Has(rec, "ethnicity") then Some(PyList([ethnicity.value, race.value]))
      else if Has(rec, "race") then Some(PyList([race.value]))
      else if Has(rec, "ethnicity") then Some(PyList([ethnicity.value]))
      else None
  }

  /** to_patient inserts the identifier, the marital status, the gender,
      the birth and death dates and the tag exactly when the record has
      them, and the extension list the race and ethnicity call for. */
  lemma PatientMeaning(rec: Record)
    ensures Get(rec, "id").None? ==> ToPatient(rec) == Err(KeyError("id"))
    ensures ToPatient(rec).Ok? <==>
      Get(rec, "id").Some? && forall i :: 0 <= i < |PatientSteps| ==> StepOk(rec, PatientSteps[i])
    ensures ToPatient(rec).Ok? ==> Built(rec, ToPatient(rec).value, "Patient", PatientSteps)
  {
    PatientKeys();
    PatientNames(AllKeys(PatientSteps));
    ResourceBuilt(rec, "Patient", PatientSteps);
  }

  /** The extension list of a patient is the one its race and ethnicity
      call for. */
  lemma PatientExtension(rec: Record)
    requires ToPatient(rec).Ok?
    ensures ExtensionShown(rec, ToPatient(rec).value.entries)
  {
    PatientKeys();
    PatientNames(AllKeys(PatientSteps));
    ResourceGet(rec, "Patient", PatientSteps, 1, "extension");
    assert StepEntry(rec, PatientSteps[1]) == ExtensionEntry(rec);
  }

  /** The ifs of to_observation. */
  const ObservationSteps: seq<Step> := [
    Copy("date", "effectiveDateTime", IsoDate),
    Copy("code", "code", Coded),
    Subject(false),
    ObservationValue(false),
    Copy("note", "note", NoteText),
    Copy("status", "status", AsIs)
  ]

  function ToObservation(rec: Record): Result<Py> {
    var r :- Resource(rec, "Observation", ObservationSteps);
    Ok(PyDict(r))
  }

  /** The same ifs with a number's value made the quantity of that number. */
  const IntendedObservationSteps: seq<Step> := [
    Copy("date", "effectiveDateTime", IsoDate),
    Copy("code", "code", Coded),
    Subject(false),
    ObservationValue(true),
    Copy("note", "note", NoteText),
    Copy("status", "status", AsIs)
  ]

  /** to_observation as evidently intended. */
  function ToObservationIntended(rec: Record): Result<Py> {
    var r :- Resource(rec, "Observation", IntendedObservationSteps);
    Ok(PyDict(r))
  }

  lemma ObservationKeys()
    ensures AllKeys(ObservationSteps) == ["effectiveDateTime", "code", "subject", "valueQuantity", "valueCodeableConcept", "valueString", "note", "status"]
    ensures AllKeys(IntendedObservationSteps) == AllKeys(ObservationSteps)
  {
  }

  lemma ObservationNames(keys: seq<string>)
    requires keys == ["effectiveDateTime", "code", "subject", "valueQuantity", "valueCodeableConcept", "valueString", "note", "status"]
    ensures Distinct(["id", "resourceType"] + keys)
  {
    HeaderKeys(keys);
  }

  /** The value of an observation as the dict shows it: a number as the
      quantity {"value": v}, a tuple as a simple quantity, a list as a
      codeable concept, a str as a string, and nothing otherwise. */
  predicate ValueShown(rec: Record, r: seq<Entry>) {
    var v := if Has(rec, "value") then Get(rec, "value").value else PyNone;
    var quantity := Get(r, "valueQuantity");
    var concept := Get(r, "valueCodeableConcept");
    var text := Get(r, "valueString");
    if !Has(rec, "value") then quantity == None && concept == None && text == None
    else if Numeric(v) then quantity == Some(PyDict([Entry("value", v)])) && concept == None && text == None
    else if v.PyTuple? then ToSimpleQuantity(v).Ok? && quantity == Some(ToSimpleQuantity(v).value) && concept == None && text == None
    else if v.PyList? then ToCodeableConcept(v).Ok? && quantity == None && concept == Some(ToCodeableConcept(v).value) && text == None
    else if v.PyStr? then quantity == None && concept == None && text == Some(v)
    else quantity == None && concept == None && text == None
  }

  /** to_observation inserts the date, the code, the note and the status
      exactly when the record has them, the subject with its display, and
      the value under the key its type calls for; as written, it never
      succeeds on a record whose value is a truthy number. */
  lemma ObservationMeaning(rec: Record)
    ensures Get(rec, "id").None? ==> ToObservation(rec) == Err(KeyError("id"))
    ensures ToObservation(rec).Ok? <==>
      Get(rec, "id").Some? && forall i :: 0 <= i < |ObservationSteps| ==> StepOk(rec, ObservationSteps[i])
    ensures ToObservation(rec).Ok? ==> !(Has(rec, "value") && Numeric(Get(rec, "value").value))
    ensures ToObservation(rec).Ok? ==> Built(rec, ToObservation(rec).value, "Observation", ObservationSteps)
    ensures ToObservation(rec).Ok? ==> SubjectShown(rec, ToObservation(rec).value.entries, false)
    ensures ToObservation(rec).Ok? ==> ValueShown(rec, ToObservation(rec).value.entries)
  {
    ObservationKeys();
    ObservationNames(AllKeys(ObservationSteps));
    ResourceBuilt(rec, "Observation", ObservationSteps);
    if ToObservation(rec).Ok? {
      var r := ToObservation(rec).value.entries;
      ResourceGet(rec, "Observation", ObservationSteps, 2, "subject");
      assert StepEntry(rec, ObservationSteps[2]) == SubjectEntry(rec, false);
      SubjectShownFrom(rec, r, false);
      ObservationValueGet(rec, ObservationSteps, false, r);
    }
  }

  /** As written, a record whose value is a truthy number never gives an
      observation: once it has an id and the ifs before the value pass, the
      value if-statement raises TypeError. */
  lemma ObservationOfNumberRaises(rec: Record)
    requires Has(rec, "value") && Numeric(Get(rec, "value").value)
    ensures ToObservation(rec).Err?
    ensures Get(rec, "id").Some? && (forall i :: 0 <= i < 3 ==> StepOk(rec, ObservationSteps[i])) ==>
      ToObservation(rec) == Err(TypeError)
  {
    ObservationKeys();
    ObservationNames(AllKeys(ObservationSteps));
    ResourceBuilt(rec, "Observation", ObservationSteps);
    NumericValueRaises(Get(rec, "value").value);
    assert StepEntry(rec, ObservationSteps[3]) == Err(TypeError);
    if Get(rec, "id").Some? && forall i :: 0 <= i < 3 ==> StepOk(rec, ObservationSteps[i]) {
      ResourceRaises(rec, "Observation", ObservationSteps, 3);
    }
  }

  /** The intended to_observation succeeds exactly when its ifs pass, and
      shows a number's value as the quantity of that number. */
  lemma ObservationIntendedMeaning(rec: Record)
    ensures Get(rec, "id").None? ==> ToObservationIntended(rec) == Err(KeyError("id"))
    ensures ToObservationIntended(rec).Ok? <==>
      Get(rec, "id").Some? && forall i :: 0 <= i < |IntendedObservationSteps| ==> StepOk(rec, IntendedObservationSteps[i])
    ensures ToObservationIntended(rec).Ok? ==> Built(rec, ToObservationIntended(rec).value, "Observation", IntendedObservationSteps)
    ensures ToObservationIntended(rec).Ok? ==> ValueShown(rec, ToObservationIntended(rec).value.entries)
  {
    ObservationKeys();
    ObservationNames(AllKeys(IntendedObservationSteps));
    ResourceBuilt(rec, "Observation", IntendedObservationSteps);
    if ToObservationIntended(rec).Ok? {
      ObservationValueGet(rec, IntendedObservationSteps, true, ToObservationIntended(rec).value.entries);
    }
  }

  /** The value keys of an observation built by steps whose fourth is the
      value if-statement. */
  lemma ObservationValueGet(rec: Record, steps: seq<Step>, intended: bool, r: seq<Entry>)
    requires 3 < |steps| && steps[3] == ObservationValue(intended)
    requires Distinct(["id", "resourceType"] + AllKeys(steps))
    requires Resource(rec, "Observation", steps).Ok?
    requires r == Resource(rec, "Observation", steps).value
    ensures ValueShown(rec, r)
  {
    ResourceGet(rec, "Observation", steps, 3, "valueQuantity");
    ResourceGet(rec, "Observation", steps, 3, "valueCodeableConcept");
    ResourceGet(rec, "Observation", steps, 3, "valueString");
    ValueShownFrom(rec, r, intended, StepEntry(rec, steps[3]).value);
  }

  /** A dict whose value keys hold what the value if-statement inserts
      shows the value. */
  lemma ValueShownFrom(rec: Record, r: seq<Entry>, intended: bool, e: Option<Entry>)
    requires StepEntry(rec, ObservationValue(intended)) == Ok(e)
    requires Get(r, "valueQuantity") == Yield(e, "valueQuantity")
    requires Get(r, "valueCodeableConcept") == Yield(e, "valueCodeableConcept")
    requires Get(r, "valueString") == Yield(e, "valueString")
    ensures ValueShown(rec, r)
  {
    if Has(rec, "value") {
      var v := Get(rec, "value").value;
      if Numeric(v) && intended {
        NumericValueQuantity(v);
      }
    }
  }

  /** The ifs of to_med_statement up to its first route. */
  const MedStatementSteps: seq<Step> := [
    Copy("nct", "extension", NctExtension),
    Subject(true),
    Period,
    Copy("medication", "medicationCodeableConcept", Coded),
    Copy("status", "status", AsIs),
    Copy("note", "note", NoteText),
    Copy("indication", "reasonCode", CodedList),
    Copy("route", "dosage", RouteDosage)
  ]

  /** The indication and route ifs, which to_med_statement runs twice. */
  const MedStatementRepeats: seq<Step> := [
    Copy("indication", "reasonCode", CodedList),
    Copy("route", "dosage", RouteDosage)
  ]

  function ToMedStatement(rec: Record): Result<Py> {
    var r :- Resource(rec, "MedicationStatement", MedStatementSteps);
    var again :- Run(Inserts(rec), r, MedStatementRepeats);
    Ok(PyDict(again))
  }

  lemma MedStatementKeys()
    ensures AllKeys(MedStatementSteps) == ["extension", "subject", "effectivePeriod", "medicationCodeableConcept", "status", "note", "reasonCode", "dosage"]
  {
  }

  lemma MedStatementNames(keys: seq<string>)
    requires keys == ["extension", "subject", "effectivePeriod", "medicationCodeableConcept", "status", "note", "reasonCode", "dosage"]
    ensures Distinct(["id", "resourceType"] + keys)
  {
    HeaderKeys(keys);
  }

  /** Running the indication and route ifs a second time changes nothing:
      they set the same keys to the same values. */
  lemma MedStatementRepeatsIdle(rec: Record)
    requires Resource(rec, "MedicationStatement", MedStatementSteps).Ok?
    ensures ToMedStatement(rec) == Ok(PyDict(Resource(rec, "MedicationStatement", MedStatementSteps).value))
  {
    MedStatementKeys();
    MedStatementNames(AllKeys(MedStatementSteps));
    ResourceIdle(rec, "MedicationStatement", MedStatementSteps, MedStatementRepeats, [6, 7]);
  }

  /** to_med_statement inserts the trial extension, the medication, the
      status, the note, the reason and the route exactly when the record
      has them. */
  lemma MedStatementMeaning(rec: Record)
    ensures Get(rec, "id").None? ==> ToMedStatement(rec) == Err(KeyError("id"))
    ensures ToMedStatement(rec).Ok? <==>
      Get(rec, "id").Some? && forall i :: 0 <= i < |MedStatementSteps| ==> StepOk(rec, MedStatementSteps[i])
    ensures ToMedStatement(rec).Ok? ==> Built(rec, ToMedStatement(rec).value, "MedicationStatement", MedStatementSteps)
  {
    if Resource(rec, "MedicationStatement", MedStatementSteps).Ok? {
      MedStatementRepeatsIdle(rec);
    }
    MedStatementKeys();
    MedStatementNames(AllKeys(MedStatementSteps));
    ResourceBuilt(rec, "MedicationStatement", MedStatementSteps);
  }

  /** A statement shows the subject with its display as a str, and the
      period of the record. */
  lemma MedStatementShown(rec: Record)
    requires ToMedStatement(rec).Ok?
    ensures SubjectShown(rec, ToMedStatement(rec).value.entries, true)
    ensures PeriodShown(rec, ToMedStatement(rec).value.entries)
  {
    MedStatementRepeatsIdle(rec);
    MedStatementKeys();
    MedStatementNames(AllKeys(MedStatementSteps));
    var r := Resource(rec, "MedicationStatement", MedStatementSteps).value;
    ResourceGet(rec, "MedicationStatement", MedStatementSteps, 1, "subject");
    assert StepEntry(rec, MedStatementSteps[1]) == SubjectEntry(rec, true);
    SubjectShownFrom(rec, r, true);
    ResourceGet(rec, "MedicationStatement", MedStatementSteps, 2, "effectivePeriod");
    assert StepEntry(rec, MedStatementSteps[2]) == PeriodEntry(rec);
    PeriodShownFrom(rec, r);
  }

  /** The ifs of to_med_administration before its dosage. */
  const AdministrationSteps: seq<Step> := [
    Copy("status", "status", AsIs),
    Copy("subject", "subject", PatientReference),
    Copy("medication", "medicationCodeableConcept", Coded),
    Period,
    Copy("note", "note", NoteText)
  ]

  /** to_med_administration: the resource, then its dosage, to_dosage's
      dict flattened. */
  function ToMedAdministration(rec: Record): Result<Py> {
    var r :- Resource(rec, "MedicationAdministration", AdministrationSteps);
    var dosage :- ToDosage(rec);
    var flat :- Flatten(dosage);
    Ok(PyDict(Set(r, "dosage", PyDict(flat))))
  }

  lemma AdministrationKeys()
    ensures AllKeys(AdministrationSteps) == ["status", "subject", "medicationCodeableConcept", "effectivePeriod", "note"]
  {
  }

  lemma AdministrationNames(keys: seq<string>)
    requires keys == ["status", "subject", "medicationCodeableConcept", "effectivePeriod", "note"]
    ensures Distinct(["id", "resourceType"] + keys)
    ensures "dosage" !in keys
  {
    HeaderKeys(keys);
  }

  /** to_med_administration raises KeyError("id") without an id, and
      otherwise raises exactly when one of its own ifs raises or to_dosage
      does: flattening the dosage never raises. */
  lemma MedAdministrationMeaning(rec: Record)
    ensures Get(rec, "id").None? ==> ToMedAdministration(rec) == Err(KeyError("id"))
    ensures ToMedAdministration(rec).Ok? <==>
      && Get(rec, "id").Some?
      && (forall i :: 0 <= i < |AdministrationSteps| ==> StepOk(rec, AdministrationSteps[i]))
      && ToDosage(rec).Ok?
  {
    AdministrationKeys();
    AdministrationNames(AllKeys(AdministrationSteps));
    ResourceBuilt(rec, "MedicationAdministration", AdministrationSteps);
    if ToDosage(rec).Ok? {
      AdministeredDosage(rec);
    }
  }

  /** An administration inserts the status, the subject reference, the
      medication and the note exactly when the record has them, and always
      a dosage: the record's dosage, flattened. */
  lemma MedAdministrationBuilt(rec: Record)
    requires ToMedAdministration(rec).Ok?
    ensures Built(rec, ToMedAdministration(rec).value, "MedicationAdministration", AdministrationSteps)
    ensures Get(ToMedAdministration(rec).value.entries, "dosage") == Some(PyDict(Flatten(ToDosage(rec).value).value))
  {
    AdministrationKeys();
    AdministrationNames(AllKeys(AdministrationSteps));
    ResourceBuilt(rec, "MedicationAdministration", AdministrationSteps);
    var r := Resource(rec, "MedicationAdministration", AdministrationSteps).value;
    var flat := Flatten(ToDosage(rec).value).value;
    assert ToMedAdministration(rec) == Ok(PyDict(Set(r, "dosage", PyDict(flat))));
    CopiedKept(rec, r, Set(r, "dosage", PyDict(flat)), AdministrationSteps);
  }

  /** An administration shows the period of the record. */
  lemma MedAdministrationPeriod(rec: Record)
    requires ToMedAdministration(rec).Ok?
    ensures PeriodShown(rec, ToMedAdministration(rec).value.entries)
  {
    AdministrationKeys();
    AdministrationNames(AllKeys(AdministrationSteps));
    var r := Resource(rec, "MedicationAdministration", AdministrationSteps).value;
    ResourceGet(rec, "MedicationAdministration", AdministrationSteps, 3, "effectivePeriod");
    assert StepEntry(rec, AdministrationSteps[3]) == PeriodEntry(rec);
    AdministeredDosage(rec);
    var flat := Flatten(ToDosage(rec).value).value;
    assert ToMedAdministration(rec).value.entries == Set(r, "dosage", PyDict(flat));
    PeriodShownFrom(rec, ToMedAdministration(rec).value.entries);
  }
}
