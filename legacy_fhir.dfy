/** The resource builders of the older fhir.py. Unlike those of
    fhir_petl/fhir.py they read every field with rec[field], so a record
    without one of the fields raises KeyError, and they test the field
    itself for truthiness. */
module LegacyFhir {
  import opened Outcomes
  import opened PyValues
  import opened FhirResources

  /** The ifs of the older to_observation. */
  const ObservationSteps: seq<Step> := [
    Strict("date", "date", "effectiveDateTime", IsoDate),
    Strict("code", "code", "code", Coded),
    Strict("subject", "subject", "subject", PatientReference),
    LegacyObservationValue
  ]

  function ToObservation(rec: Record): Result<Py> {
    var r :- Resource(rec, "Observation", ObservationSteps);
    Ok(PyDict(r))
  }

  lemma ObservationKeys()
    ensures AllKeys(ObservationSteps) == ["effectiveDateTime", "code", "subject", "valueQuantity", "valueString"]
  {
  }

  lemma ObservationNames(keys: seq<string>)
    requires keys == ["effectiveDateTime", "code", "subject", "valueQuantity", "valueString"]
    ensures Distinct(["id", "resourceType"] + keys)
  {
    HeaderKeys(keys);
  }

  /** The older to_observation raises KeyError("id") without an id,
      succeeds exactly when no if raises, and then holds the id, the type,
      and the date, the code and the subject reference exactly when the
      record's field is truthy. */
  lemma ObservationMeaning(rec: Record)
    ensures Get(rec, "id").None? ==> ToObservation(rec) == Err(KeyError("id"))
    ensures ToObservation(rec).Ok? <==>
      Get(rec, "id").Some? && forall i :: 0 <= i < |ObservationSteps| ==> StepOk(rec, ObservationSteps[i])
    ensures ToObservation(rec).Ok? ==>
      && Get(ToObservation(rec).value.entries, "id") == Get(rec, "id")
      && Get(ToObservation(rec).value.entries, "resourceType") == Some(PyStr("Observation"))
      && TestedAll(rec, ToObservation(rec).value.entries, ObservationSteps)
  {
    ObservationKeys();
    ObservationNames(AllKeys(ObservationSteps));
    ResourceBuilt(rec, "Observation", ObservationSteps);
    if ToObservation(rec).Ok? {
      ResourceTested(rec, "Observation", ObservationSteps);
    }
  }

  /** A record with an id but without a date field raises KeyError("date"):
      the date is the first field read. */
  lemma ObservationWithoutDate(rec: Record)
    requires Get(rec, "id").Some? && Get(rec, "date").None?
    ensures ToObservation(rec) == Err(KeyError("date"))
  {
    var h := Header(Get(rec, "id").value, "Observation");
    assert Inserts(rec)(ObservationSteps[0]) == Err(KeyError("date"));
    assert Resource(rec, "Observation", ObservationSteps) == Run(Inserts(rec), h, ObservationSteps);
  }

  /** The value of an older observation: an int or a float (not a bool) as
      the quantity {"value": v}, any other truthy value as a string, and
      nothing for a falsy value. */
  predicate ValueShown(rec: Record, r: seq<Entry>) {
    && Get(rec, "value").Some?
    && var v := Get(rec, "value").value;
       if !Truthy(v) then Get(r, "valueQuantity") == None && Get(r, "valueString") == None
       else if v.PyInt? || v.PyFloat? then
         Get(r, "valueQuantity") == Some(PyDict([Entry("value", v)])) && Get(r, "valueString") == None
       else Get(r, "valueQuantity") == None && Get(r, "valueString") == Some(v)
  }

  lemma ObservationValue(rec: Record)
    requires ToObservation(rec).Ok?
    ensures ValueShown(rec, ToObservation(rec).value.entries)
  {
    ObservationKeys();
    ObservationNames(AllKeys(ObservationSteps));
    ResourceGet(rec, "Observation", ObservationSteps, 3, "valueQuantity");
    ResourceGet(rec, "Observation", ObservationSteps, 3, "valueString");
    assert StepEntry(rec, ObservationSteps[3]).Ok?;
  }

  /** The ifs of the older to_med_dispense; its daysSupply reads the
      quantity field. */
  const MedDispenseSteps: seq<Step> := [
    Strict("date", "date", "whenHandedOver", IsoDate),
    Strict("medication", "medication", "medicationCodeableConcept", Coded),
    Strict("subject", "subject", "subject", PatientReference),
    Strict("quantity", "quantity", "quantity", ValueOnly),
    Strict("daysSupply", "quantity", "daysSupply", Days),
    Strict("text", "text", "text", Division)
  ]

  function ToMedDispense(rec: Record): Result<Py> {
    var r :- Resource(rec, "MedicationDispense", MedDispenseSteps);
    Ok(PyDict(r))
  }

  lemma MedDispenseKeys()
    ensures AllKeys(MedDispenseSteps) == ["whenHandedOver", "medicationCodeableConcept", "subject", "quantity", "daysSupply", "text"]
  {
  }

  lemma MedDispenseNames(keys: seq<string>)
    requires keys == ["whenHandedOver", "medicationCodeableConcept", "subject", "quantity", "daysSupply", "text"]
    ensures Distinct(["id", "resourceType"] + keys)
  {
    HeaderKeys(keys);
  }

  /** The older to_med_dispense raises KeyError("id") without an id,
      succeeds exactly when no if raises, and then holds the id, the type,
      and each of its keys exactly when the tested field is truthy. */
  lemma MedDispenseMeaning(rec: Record)
    ensures Get(rec, "id").None? ==> ToMedDispense(rec) == Err(KeyError("id"))
    ensures ToMedDispense(rec).Ok? <==>
      Get(rec, "id").Some? && forall i :: 0 <= i < |MedDispenseSteps| ==> StepOk(rec, MedDispenseSteps[i])
    ensures ToMedDispense(rec).Ok? ==>
      && Get(ToMedDispense(rec).value.entries, "id") == Get(rec, "id")
      && Get(ToMedDispense(rec).value.entries, "resourceType") == Some(PyStr("MedicationDispense"))
      && TestedAll(rec, ToMedDispense(rec).value.entries, MedDispenseSteps)
  {
    MedDispenseKeys();
    MedDispenseNames(AllKeys(MedDispenseSteps));
    ResourceBuilt(rec, "MedicationDispense", MedDispenseSteps);
    if ToMedDispense(rec).Ok? {
      ResourceTested(rec, "MedicationDispense", MedDispenseSteps);
    }
  }

  /** As written, daysSupply carries the quantity: in a dispense built
      from a record whose daysSupply is truthy, daysSupply holds
      {"value": quantity, "unit": "days"}, so it differs from the record's
      own daysSupply whenever the two fields differ. */
  lemma DaysSupplyIsQuantity(rec: Record, r: seq<Entry>)
    requires TestedAll(rec, r, MedDispenseSteps)
    requires Get(rec, "daysSupply").Some? && Truthy(Get(rec, "daysSupply").value)
    ensures Get(rec, "quantity").Some?
    ensures Get(r, "daysSupply") == Some(PyDict([Entry("value", Get(rec, "quantity").value), Entry("unit", PyStr("days"))]))
    ensures Get(rec, "quantity") != Get(rec, "daysSupply") ==>
      Get(r, "daysSupply") != Some(PyDict([Entry("value", Get(rec, "daysSupply").value), Entry("unit", PyStr("days"))]))
  {
    var s := MedDispenseSteps[4];
    assert s == Strict("daysSupply", "quantity", "daysSupply", Days);
    assert Tested(rec, r, s);
  }
}
