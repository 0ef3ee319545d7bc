/** to_dosage and to_med_administration of fhir_petl/fhir.py: the dosage
    dict, its nested doseAndRate entry, and the administration resource
    that flattens that entry into its dosage. */
module FhirDosage {
  import opened Outcomes
  import opened PyValues
  import opened FhirTypes
  import opened FhirResources

  /** The ifs of to_dosage that fill the dosage itself, before doseAndRate. */
  const DosageSteps: seq<Step> := [
    Copy("sequence", "sequence", AsIs),
    Copy("dosage_text", "text", AsIs),
    Copy("additionalInstruction", "additionalInstruction", Coded),
    Copy("patientInstruction", "patientInstruction", AsIs),
    Copy("timing", "timing", TimingOf),
    Copy("asNeededBoolean", "asNeededBoolean", AsIs),
    Copy("asNeeded", "asNeededCodeableConcept", Coded),
    Copy("site", "site", Coded),
    Copy("route", "route", Coded),
    Copy("method", "method", Coded)
  ]

  /** The ifs that fill the doseAndRate dict; doseRange goes through
      to_ratio, as the code has it. */
  const DoseAndRateSteps: seq<Step> := [
    Copy("type", "type", Coded),
    Copy("doseRange", "doseRange", RatioOf),
    Copy("doseQuantity", "doseQuantity", SimpleQuantityOf),
    Copy("rateRatio", "rateRatio", RatioOf),
    Copy("rateRange", "rateRange", RangeOf),
    Copy("rateQuantity", "rateQuantity", SimpleQuantityOf)
  ]

  /** The ifs that follow doseAndRate. */
  const MaxDoseSteps: seq<Step> := [
    Copy("maxDosePerPeriod", "maxDosePerPeriod", RatioOf),
    Copy("maxDosePerAdministration", "maxDosePerAdministration", SimpleQuantityOf),
    Copy("maxDosePerLifetime", "maxDosePerLifetime", SimpleQuantityOf)
  ]

  /** The doseAndRate dict of a record. */
  function DoseAndRate(rec: Record): Result<seq<Entry>> {
    Run(Inserts(rec), [], DoseAndRateSteps)
  }

  /** d with doseAndRate set to [dr] when dr is not empty. */
  function WithDoseAndRate(d: seq<Entry>, dr: seq<Entry>): seq<Entry> {
    if dr != [] then Set(d, "doseAndRate", PyList([PyDict(dr)])) else d
  }

  /** The steps before over an empty dict, then doseAndRate when not
      empty, then the steps after. */
  function Assemble(rec: Record, before: seq<Step>, doseAndRate: Result<seq<Entry>>, after: seq<Step>): Result<seq<Entry>> {
    var d :- Run(Inserts(rec), [], before);
    var dr :- doseAndRate;
    Run(Inserts(rec), WithDoseAndRate(d, dr), after)
  }

  /** Setting doseAndRate leaves every other key as it was. */
  lemma WithDoseAndRateGet(d: seq<Entry>, dr: seq<Entry>, k: string)
    requires k != "doseAndRate"
    ensures Get(WithDoseAndRate(d, dr), k) == Get(d, k)
  {
  }

  /** The keys of the steps after doseAndRate are missing from the dosage
      dict before them. */
  lemma FreshAfter(d: seq<Entry>, dr: seq<Entry>, before: seq<string>, after: seq<string>)
    requires "doseAndRate" !in after
    requires forall k :: k in after ==> k !in before
    requires forall k :: k !in before ==> Get(d, k) == Get([], k)
    ensures forall k :: k in after ==> Get(WithDoseAndRate(d, dr), k) == None
  {
    forall k | k in after
      ensures Get(WithDoseAndRate(d, dr), k) == None
    {
      WithDoseAndRateGet(d, dr, k);
    }
  }

  /** The steps after doseAndRate leave the keys before them, and
      doseAndRate, as they were. */
  lemma KeptBefore(d: seq<Entry>, dr: seq<Entry>, r: seq<Entry>, before: seq<string>, after: seq<string>)
    requires "doseAndRate" !in before && "doseAndRate" !in after
    requires forall k :: k in after ==> k !in before
    requires forall k :: k !in before ==> Get(d, k) == Get([], k)
    requires forall k :: k !in after ==> Get(r, k) == Get(WithDoseAndRate(d, dr), k)
    ensures forall k :: k in before ==> Get(r, k) == Get(d, k)
    ensures Get(r, "doseAndRate") == if dr != [] then Some(PyList([PyDict(dr)])) else None
    ensures forall k :: k !in before && k !in after && k != "doseAndRate" ==> Get(r, k) == None
  {
    forall k | k in before || (k !in after && k != "doseAndRate")
      ensures Get(r, k) == Get(d, k)
    {
      WithDoseAndRateGet(d, dr, k);
    }
    assert Get(d, "doseAndRate") == Get([], "doseAndRate");
  }

  /** to_dosage: the dosage fields, then doseAndRate as a one-element list
      when that dict is not empty, then the maximum doses. */
  function ToDosage(rec: Record): Result<seq<Entry>> {
    Assemble(rec, DosageSteps, DoseAndRate(rec), MaxDoseSteps)
  }

  /** The record has one of the fields of doseAndRate. */
  predicate HasDoseOrRate(rec: Record) {
    || Has(rec, "type") || Has(rec, "doseRange") || Has(rec, "doseQuantity")
    || Has(rec, "rateRatio") || Has(rec, "rateRange") || Has(rec, "rateQuantity")
  }

  lemma DosageKeys()
    ensures AllKeys(DosageSteps) == ["sequence", "text", "additionalInstruction", "patientInstruction", "timing",
                                     "asNeededBoolean", "asNeededCodeableConcept", "site", "route", "method"]
  {
  }

  lemma DoseAndRateKeys()
    ensures AllKeys(DoseAndRateSteps) == ["type", "doseRange", "doseQuantity", "rateRatio", "rateRange", "rateQuantity"]
  {
  }

  lemma MaxDoseKeys()
    ensures AllKeys(MaxDoseSteps) == ["maxDosePerPeriod", "maxDosePerAdministration", "maxDosePerLifetime"]
  {
  }

  lemma DosageNames(a: seq<string>, c: seq<string>)
    requires a == ["sequence", "text", "additionalInstruction", "patientInstruction", "timing",
                   "asNeededBoolean", "asNeededCodeableConcept", "site", "route", "method"]
    requires c == ["maxDosePerPeriod", "maxDosePerAdministration", "maxDosePerLifetime"]
    ensures Distinct(a) && Distinct(c)
    ensures "doseAndRate" !in a && "doseAndRate" !in c
    ensures forall k :: k in c ==> k !in a
  {
  }

  lemma DoseAndRateNames(b: seq<string>)
    requires b == ["type", "doseRange", "doseQuantity", "rateRatio", "rateRange", "rateQuantity"]
    ensures Distinct(b)
  {
  }

  /** The record has a doseAndRate field exactly when one of the Copy
      steps of doseAndRate has its field. */
  lemma DoseOrRateFields(rec: Record)
    ensures AnyField(rec, DoseAndRateSteps) <==> HasDoseOrRate(rec)
  {
    var s := DoseAndRateSteps;
    assert s[0].field == "type" && s[1].field == "doseRange" && s[2].field == "doseQuantity";
    assert s[3].field == "rateRatio" && s[4].field == "rateRange" && s[5].field == "rateQuantity";
    if AnyField(rec, s) {
      var i :| 0 <= i < |s| && s[i].Copy? && Has(rec, s[i].field);
      assert i < 6;
    }
  }

  /** doseAndRate raises exactly when one of its present fields fails to
      convert; otherwise it holds each of them, no key twice, and is not
      empty exactly when the record has one of type, doseRange,
      doseQuantity, rateRatio, rateRange or rateQuantity. */
  lemma DoseAndRatePresent(rec: Record)
    ensures DoseAndRate(rec).Ok? <==> forall i :: 0 <= i < |DoseAndRateSteps| ==> StepOk(rec, DoseAndRateSteps[i])
    ensures DoseAndRate(rec).Ok? ==>
      && (DoseAndRate(rec).value != [] <==> HasDoseOrRate(rec))
      && Unique(DoseAndRate(rec).value)
      && CopiedAll(rec, DoseAndRate(rec).value, DoseAndRateSteps)
      && (forall k :: k !in AllKeys(DoseAndRateSteps) ==> Get(DoseAndRate(rec).value, k) == None)
  {
    DoseAndRateKeys();
    DoseAndRateNames(AllKeys(DoseAndRateSteps));
    RunCopies(rec, [], DoseAndRateSteps);
    if DoseAndRate(rec).Ok? {
      DoseAndRateCopies();
      CopiesEmpty(rec, DoseAndRateSteps);
    }
    DoseOrRateFields(rec);
  }

  /** Every if of doseAndRate copies one field; the third is the dose
      quantity. */
  lemma DoseAndRateCopies()
    ensures AllCopies(DoseAndRateSteps) && DoseAndRateSteps[2].key == "doseQuantity"
  {
  }

  /** The keys of the three groups of ifs: each group's keys are
      distinct, none is doseAndRate, and the maximum doses are not dosage
      fields. */
  lemma DosageFacts()
    ensures Distinct(AllKeys(DosageSteps)) && Distinct(AllKeys(DoseAndRateSteps)) && Distinct(AllKeys(MaxDoseSteps))
    ensures "doseAndRate" !in AllKeys(DosageSteps) && "doseAndRate" !in AllKeys(MaxDoseSteps)
    ensures forall k :: k in AllKeys(MaxDoseSteps) ==> k !in AllKeys(DosageSteps)
  {
    DosageKeys();
    DoseAndRateKeys();
    MaxDoseKeys();
    DosageNames(AllKeys(DosageSteps), AllKeys(MaxDoseSteps));
    DoseAndRateNames(AllKeys(DoseAndRateSteps));
  }

  /** Copy steps before and after doseAndRate, with distinct keys other
      than doseAndRate, raise exactly when one of them or doseAndRate
      does, and otherwise leave each step's key and doseAndRate as they
      insert them, with no key twice. */
  lemma AssembleMeaning(rec: Record, before: seq<Step>, doseAndRate: Result<seq<Entry>>, after: seq<Step>)
    requires Distinct(AllKeys(before)) && Distinct(AllKeys(after))
    requires "doseAndRate" !in AllKeys(before) && "doseAndRate" !in AllKeys(after)
    requires forall k :: k in AllKeys(after) ==> k !in AllKeys(before)
    ensures Assemble(rec, before, doseAndRate, after).Ok? <==>
      && (forall i :: 0 <= i < |before| ==> StepOk(rec, before[i]))
      && doseAndRate.Ok?
      && (forall i :: 0 <= i < |after| ==> StepOk(rec, after[i]))
    ensures Assemble(rec, before, doseAndRate, after).Ok? ==>
      && CopiedAll(rec, Assemble(rec, before, doseAndRate, after).value, before)
      && CopiedAll(rec, Assemble(rec, before, doseAndRate, after).value, after)
      && (Unique(doseAndRate.value) ==> Unique(Assemble(rec, before, doseAndRate, after).value))
      && Get(Assemble(rec, before, doseAndRate, after).value, "doseAndRate") ==
           (if doseAndRate.value != [] then Some(PyList([PyDict(doseAndRate.value)])) else None)
      && (forall k :: k !in AllKeys(before) && k !in AllKeys(after) && k != "doseAndRate" ==>
            Get(Assemble(rec, before, doseAndRate, after).value, k) == None)
  {
    RunCopies(rec, [], before);
    var d1 := Run(Inserts(rec), [], before);
    if d1.Ok? && doseAndRate.Ok? {
      var d := d1.value;
      var d' := WithDoseAndRate(d, doseAndRate.value);
      RunUnique(Inserts(rec), [], before);
      FreshAfter(d, doseAndRate.value, AllKeys(before), AllKeys(after));
      RunCopies(rec, d', after);
      var r := Run(Inserts(rec), d', after);
      if r.Ok? {
        RunUnique(Inserts(rec), d', after);
        KeptBefore(d, doseAndRate.value, r.value, AllKeys(before), AllKeys(after));
        CopiedKept(rec, d, r.value, before);
      }
    }
  }

  /** to_dosage raises exactly when a present field fails to convert;
      otherwise it holds every dosage and maximum-dose field the record
      has, doseAndRate as a one-element list exactly when the record has a
      dose or rate field, and no key twice. */
  lemma DosageMeaning(rec: Record)
    ensures ToDosage(rec).Ok? <==>
      && (forall i :: 0 <= i < |DosageSteps| ==> StepOk(rec, DosageSteps[i]))
      && (forall i :: 0 <= i < |DoseAndRateSteps| ==> StepOk(rec, DoseAndRateSteps[i]))
      && (forall i :: 0 <= i < |MaxDoseSteps| ==> StepOk(rec, MaxDoseSteps[i]))
    ensures ToDosage(rec).Ok? ==>
      && CopiedAll(rec, ToDosage(rec).value, DosageSteps)
      && CopiedAll(rec, ToDosage(rec).value, MaxDoseSteps)
      && Unique(ToDosage(rec).value)
      && DoseAndRate(rec).Ok?
      && Get(ToDosage(rec).value, "doseAndRate") ==
           (if HasDoseOrRate(rec) then Some(PyList([PyDict(DoseAndRate(rec).value)])) else None)
      && (forall k :: k !in AllKeys(DosageSteps) && k !in AllKeys(MaxDoseSteps) && k != "doseAndRate" ==>
            Get(ToDosage(rec).value, k) == None)
  {
    DosageFacts();
    DoseAndRatePresent(rec);
    AssembleMeaning(rec, DosageSteps, DoseAndRate(rec), MaxDoseSteps);
  }

  /** v[0]: the first item of a list, a tuple or a str. */
  function First(v: Py): (r: Result<Py>)
    ensures v.PyList? && v.items != [] ==> r == Ok(v.items[0])
  {
    match v
    case PyList(items) => if items == [] then Err(IndexError) else Ok(items[0])
    case PyTuple(items) => if items == [] then Err(IndexError) else Ok(items[0])
    case PyStr(chars) => if chars == [] then Err(IndexError) else Ok(PyStr([chars[0]]))
    case PyDict(_) => Err(KeyError("0"))
    case _ => Err(TypeError)
  }

  /** if "doseAndRate" in dosage: dosage.update(dosage.pop("doseAndRate")[0]);
      the pop happens before the update. */
  function Merge(d: seq<Entry>): Result<seq<Entry>> {
    if Get(d, "doseAndRate").Some? then
      var first :- First(Get(d, "doseAndRate").value);
      if first.PyDict? then Ok(Update(Pop(d, "doseAndRate"), first.entries)) else Err(TypeError)
    else Ok(d)
  }

  /** if "doseQuantity" in dosage: dosage["dose"] = dosage.pop("doseQuantity") */
  function RenameDose(d: seq<Entry>): seq<Entry> {
    if Get(d, "doseQuantity").Some? then Set(Pop(d, "doseQuantity"), "dose", Get(d, "doseQuantity").value) else d
  }

  /** The dosage of an administration: doseAndRate merged in, doseQuantity
      renamed to dose. */
  function Flatten(d: seq<Entry>): Result<seq<Entry>> {
    var merged :- Merge(d);
    Ok(RenameDose(merged))
  }

  /** What the dosage holds under k once dr is merged into it in place of
      doseAndRate. */
  function Merged(d: seq<Entry>, dr: seq<Entry>, k: string): Option<Py> {
    if Get(dr, k).Some? then Get(dr, k) else if k == "doseAndRate" then None else Get(d, k)
  }

  /** What the flattened dosage holds under k: the merged value, with
      doseQuantity moved to dose. */
  function FlatGet(d: seq<Entry>, dr: seq<Entry>, k: string): Option<Py> {
    if k == "doseQuantity" then None
    else if k == "dose" && Merged(d, dr, "doseQuantity").Some? then Merged(d, dr, "doseQuantity")
    else Merged(d, dr, k)
  }

  /** Setting k leaves the other keys as they were; popping it removes it. */
  lemma SetPopGet(d: seq<Entry>, k: string, k': string, v: Py, x: string)
    requires Unique(d)
    ensures Get(Set(Pop(d, k), k', v), x) == if x == k' then Some(v) else if x == k then None else Get(d, x)
  {
  }

  /** Merging a dosage whose doseAndRate holds [dr], or nothing when dr
      is empty, never raises and leaves under each key what Merged says. */
  lemma MergeMeaning(d: seq<Entry>, dr: seq<Entry>)
    requires Unique(d) && Unique(dr)
    requires Get(d, "doseAndRate") == if dr != [] then Some(PyList([PyDict(dr)])) else None
    ensures Merge(d).Ok?
    ensures forall k :: Get(Merge(d).value, k) == Merged(d, dr, k)
    ensures Unique(Merge(d).value)
  {
    if dr != [] {
      assert First(Get(d, "doseAndRate").value) == Ok(PyDict(dr));
      var popped := Pop(d, "doseAndRate");
      assert Merge(d) == Ok(Update(popped, dr));
    }
  }

  /** Renaming moves the value of doseQuantity, if any, to dose. */
  lemma RenameMeaning(m: seq<Entry>)
    requires Unique(m)
    ensures forall k :: Get(RenameDose(m), k) == (if k == "doseQuantity" then None
      else if k == "dose" && Get(m, "doseQuantity").Some? then Get(m, "doseQuantity") else Get(m, k))
    ensures Unique(RenameDose(m))
  {
    if Get(m, "doseQuantity").Some? {
      forall k
        ensures Get(RenameDose(m), k) == if k == "doseQuantity" then None else if k == "dose" then Get(m, "doseQuantity") else Get(m, k)
      {
        SetPopGet(m, "doseQuantity", "dose", Get(m, "doseQuantity").value, k);
      }
    }
  }

  /** Flattening a dosage as to_dosage builds it, with doseAndRate holding
      [dr] exactly when dr is not empty, never raises: each key holds
      what dr holds for it, or else what the dosage held, doseAndRate and
      doseQuantity are gone, and dose holds the dose quantity. */
  lemma FlattenMeaning(d: seq<Entry>, dr: seq<Entry>)
    requires Unique(d) && Unique(dr)
    requires Get(d, "doseAndRate") == if dr != [] then Some(PyList([PyDict(dr)])) else None
    ensures Flatten(d).Ok?
    ensures forall k :: Get(Flatten(d).value, k) == FlatGet(d, dr, k)
    ensures Unique(Flatten(d).value)
  {
    MergeMeaning(d, dr);
    var m := Merge(d).value;
    RenameMeaning(m);
    var f := RenameDose(m);
    assert Flatten(d) == Ok(f);
    forall k
      ensures Get(f, k) == FlatGet(d, dr, k)
    {
      FlatGetFrom(d, dr, m, f, k);
    }
  }

  /** A key of the renamed merge holds what FlatGet says. */
  lemma FlatGetFrom(d: seq<Entry>, dr: seq<Entry>, m: seq<Entry>, f: seq<Entry>, k: string)
    requires forall x :: Get(m, x) == Merged(d, dr, x)
    requires Get(f, k) == (if k == "doseQuantity" then None
      else if k == "dose" && Get(m, "doseQuantity").Some? then Get(m, "doseQuantity") else Get(m, k))
    ensures Get(f, k) == FlatGet(d, dr, k)
  {
  }

  /** The dose-and-rate fields as an administration shows them: the dose
      quantity under "dose". */
  const FlatDoseSteps: seq<Step> := DoseAndRateSteps[2 := Copy("doseQuantity", "dose", SimpleQuantityOf)]

  lemma FlatNames(a: seq<string>, b: seq<string>, c: seq<string>)
    requires a == ["sequence", "text", "additionalInstruction", "patientInstruction", "timing",
                   "asNeededBoolean", "asNeededCodeableConcept", "site", "route", "method"]
    requires b == ["type", "doseRange", "doseQuantity", "rateRatio", "rateRange", "rateQuantity"]
    requires c == ["maxDosePerPeriod", "maxDosePerAdministration", "maxDosePerLifetime"]
    ensures forall k :: k in b ==> k !in a && k !in c
    ensures "dose" !in a && "dose" !in b && "dose" !in c
    ensures "doseQuantity" !in a && "doseQuantity" !in c && "doseAndRate" !in b
  {
  }

  /** The dose-and-rate keys are neither dosage nor maximum-dose keys, and
      no list has "dose". */
  lemma FlatFacts()
    ensures forall k :: k in AllKeys(DoseAndRateSteps) ==> k !in AllKeys(DosageSteps) && k !in AllKeys(MaxDoseSteps)
    ensures "dose" !in AllKeys(DosageSteps) && "dose" !in AllKeys(DoseAndRateSteps) && "dose" !in AllKeys(MaxDoseSteps)
    ensures "doseQuantity" !in AllKeys(DosageSteps) && "doseQuantity" !in AllKeys(MaxDoseSteps)
    ensures "doseAndRate" !in AllKeys(DoseAndRateSteps)
  {
    DosageKeys();
    DoseAndRateKeys();
    MaxDoseKeys();
    FlatNames(AllKeys(DosageSteps), AllKeys(DoseAndRateSteps), AllKeys(MaxDoseSteps));
  }

  /** Flattening keeps the keys of the outer dosage that the inner dict
      does not have. */
  lemma FlatOuter(d: seq<Entry>, dr: seq<Entry>, f: seq<Entry>, outer: seq<string>, inner: seq<string>)
    requires forall k :: Get(f, k) == FlatGet(d, dr, k)
    requires "dose" !in outer && "doseQuantity" !in outer && "doseAndRate" !in outer
    requires forall k :: k !in inner ==> Get(dr, k) == None
    requires forall k :: k in inner ==> k !in outer
    ensures forall k :: k in outer ==> Get(f, k) == Get(d, k)
  {
  }

  /** Flattening keeps the keys of the inner dict, with doseQuantity under
      dose, and drops doseAndRate. */
  lemma FlatInner(d: seq<Entry>, dr: seq<Entry>, f: seq<Entry>, a: seq<string>, c: seq<string>, inner: seq<string>)
    requires forall k :: Get(f, k) == FlatGet(d, dr, k)
    requires forall k :: k !in inner ==> Get(dr, k) == None
    requires forall k :: k !in a && k !in c && k != "doseAndRate" ==> Get(d, k) == None
    requires "dose" !in a && "dose" !in c && "doseQuantity" !in a && "doseQuantity" !in c
    requires "dose" !in inner && "doseAndRate" !in inner
    requires forall k :: k in inner ==> k !in a && k !in c
    ensures forall k :: k in inner && k != "doseQuantity" ==> Get(f, k) == Get(dr, k)
    ensures Get(f, "dose") == Get(dr, "doseQuantity")
    ensures Get(f, "doseAndRate") == None && Get(f, "doseQuantity") == None
  {
    assert Get(d, "doseQuantity") == None && Get(dr, "doseAndRate") == None;
  }

  /** Flattening a dosage assembled from Copy steps before and after
      doseAndRate, and inner Copy steps whose i-th is doseQuantity, shows
      the outer steps and the inner ones with doseQuantity under "dose". */
  lemma {:induction false} FlatCopied(rec: Record, d: seq<Entry>, dr: seq<Entry>, before: seq<Step>, inner: seq<Step>, after: seq<Step>, i: nat)
    requires Unique(d) && Unique(dr)
    requires Get(d, "doseAndRate") == if dr != [] then Some(PyList([PyDict(dr)])) else None
    requires CopiedAll(rec, d, before) && CopiedAll(rec, d, after) && CopiedAll(rec, dr, inner)
    requires forall k :: k !in AllKeys(inner) ==> Get(dr, k) == None
    requires forall k :: k !in AllKeys(before) && k !in AllKeys(after) && k != "doseAndRate" ==> Get(d, k) == None
    requires AllCopies(inner) && Distinct(AllKeys(inner)) && i < |inner| && inner[i].key == "doseQuantity"
    requires forall k :: k in AllKeys(inner) ==> k !in AllKeys(before) && k !in AllKeys(after)
    requires "dose" !in AllKeys(before) && "dose" !in AllKeys(inner) && "dose" !in AllKeys(after)
    requires "doseQuantity" !in AllKeys(before) && "doseQuantity" !in AllKeys(after)
    requires "doseAndRate" !in AllKeys(before) && "doseAndRate" !in AllKeys(inner) && "doseAndRate" !in AllKeys(after)
    ensures Flatten(d).Ok?
    ensures CopiedAll(rec, Flatten(d).value, before) && CopiedAll(rec, Flatten(d).value, after)
    ensures CopiedAll(rec, Flatten(d).value, inner[i := Copy(inner[i].field, "dose", inner[i].conv)])
    ensures Get(Flatten(d).value, "doseAndRate") == None && Get(Flatten(d).value, "doseQuantity") == None
    ensures Unique(Flatten(d).value)
  {
    FlattenMeaning(d, dr);
    var f := Flatten(d).value;
    var a, b, c := AllKeys(before), AllKeys(inner), AllKeys(after);
    FlatOuter(d, dr, f, a, b);
    FlatOuter(d, dr, f, c, b);
    CopiedKept(rec, d, f, before);
    CopiedKept(rec, d, f, after);
    FlatInner(d, dr, f, a, c, b);
    CopiedMoved(rec, dr, f, inner, i, "dose");
  }

  /** The dosage of an administration: to_dosage's dict flattened, which
      never raises; it shows the dosage fields, the dose-and-rate fields
      with the dose quantity under "dose", and the maximum doses, and has
      neither doseAndRate nor doseQuantity. */
  lemma AdministeredDosage(rec: Record)
    requires ToDosage(rec).Ok?
    ensures Flatten(ToDosage(rec).value).Ok?
    ensures CopiedAll(rec, Flatten(ToDosage(rec).value).value, DosageSteps)
    ensures CopiedAll(rec, Flatten(ToDosage(rec).value).value, FlatDoseSteps)
    ensures CopiedAll(rec, Flatten(ToDosage(rec).value).value, MaxDoseSteps)
    ensures Get(Flatten(ToDosage(rec).value).value, "doseAndRate") == None
    ensures Get(Flatten(ToDosage(rec).value).value, "doseQuantity") == None
    ensures Unique(Flatten(ToDosage(rec).value).value)
  {
    DosageMeaning(rec);
    DoseAndRatePresent(rec);
    DosageFacts();
    FlatFacts();
    DoseAndRateCopies();
    FlatCopied(rec, ToDosage(rec).value, DoseAndRate(rec).value, DosageSteps, DoseAndRateSteps, MaxDoseSteps, 2);
  }
}
