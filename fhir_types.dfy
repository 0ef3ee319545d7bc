/** The FHIR datatypes the resource builders fill in: codings, codeable
    concepts, quantities, ranges, ratios and timings, each built from a tuple
    of a petl record. */
module FhirTypes {
  import opened Outcomes
  import opened PyValues

  /** The dict tuple_to_code returns for the parts of a code: the first
      matching branch of its if-chain, None when every part is falsy. */
  function Coding(system: Py, code: Py, display: Py): Py {
    if Truthy(system) && Truthy(code) && Truthy(display) then
      PyDict([Entry("system", system), Entry("code", code), Entry("display", display)])
    else if Truthy(code) && Truthy(display) then PyDict([Entry("code", code), Entry("display", display)])
    else if Truthy(system) && Truthy(code) then PyDict([Entry("system", system), Entry("code", code)])
    else if Truthy(system) && Truthy(display) then PyDict([Entry("system", system), Entry("display", display)])
    else if Truthy(code) then PyDict([Entry("code", code)])
    else if Truthy(display) then PyDict([Entry("display", display)])
    else if Truthy(system) then PyDict([Entry("system", system)])
    else PyNone
  }

  /** tuple_to_code(x): a pair is (system, code) without a display; anything
      else must unpack to (system, code, display). The coding holds exactly
      the truthy parts, in the order system, code, display. */
  function TupleToCode(x: Py): (r: Result<Py>)
    ensures Items(x).Err? ==> r == Err(TypeError)
    ensures Items(x).Ok? && |Items(x).value| != 2 && |Items(x).value| != 3 ==> r == Err(ValueError(""))
    ensures r.Ok? <==> Items(x).Ok? && (|Items(x).value| == 2 || |Items(x).value| == 3)
    ensures r.Ok? ==>
      var items := Items(x).value;
      var display := if |items| == 3 then items[2] else PyNone;
      r.value == if !Truthy(items[0]) && !Truthy(items[1]) && !Truthy(display) then PyNone
                 else PyDict(IfTruthy("system", items[0]) + IfTruthy("code", items[1]) + IfTruthy("display", display))
  {
    var items :- Items(x);
    if |items| == 2 then Ok(Coding(items[0], items[1], PyNone))
    else
      var parts :- Unpack(x, 3);
      Ok(Coding(parts[0], parts[1], parts[2]))
  }

  /** A pair never yields a display. */
  lemma PairHasNoDisplay(x: Py)
    requires Items(x).Ok? && |Items(x).value| == 2
    ensures TupleToCode(x).Ok?
    ensures TupleToCode(x).value.PyNone? || Get(TupleToCode(x).value.entries, "display") == None
  {
    var items := Items(x).value;
    var parts := IfTruthy("system", items[0]) + IfTruthy("code", items[1]);
    GetAppend(parts, [], "display");
    assert IfTruthy("system", items[0]) + IfTruthy("code", items[1]) + IfTruthy("display", PyNone) == parts + [];
    GetAppend(IfTruthy("system", items[0]), IfTruthy("code", items[1]), "display");
  }

  /** A coding that the comprehension in to_codeable_concept keeps: a dict
      whose "code" is truthy. */
  predicate HasCode(c: Py) {
    c.PyDict? && Get(c.entries, "code").Some? && Truthy(Get(c.entries, "code").value)
  }

  /** c.get("code") as a condition; None has no get. */
  function CodePresent(c: Py): (r: Result<bool>)
    ensures r.Ok? <==> c.PyDict?
    ensures r.Ok? ==> r.value == HasCode(c)
  {
    if c.PyDict? then Ok(HasCode(c)) else Err(AttributeError)
  }

  /** The coding of one tuple, if the comprehension keeps it. */
  function Kept(x: Py): (r: Result<seq<Py>>)
    ensures r.Ok? <==> TupleToCode(x).Ok? && TupleToCode(x).value.PyDict?
    ensures r.Ok? ==> r.value == if HasCode(TupleToCode(x).value) then [TupleToCode(x).value] else []
  {
    var c :- TupleToCode(x);
    var keep :- CodePresent(c);
    Ok(if keep then [c] else [])
  }

  /** [c for c in map(tuple_to_code, xs) if c.get("code")] */
  function Codings(xs: seq<Py>): Result<seq<Py>> {
    if xs == [] then Ok([])
    else
      var h :- Kept(xs[0]);
      var rest :- Codings(xs[1..]);
      Ok(h + rest)
  }

  /** The comprehension succeeds exactly when every tuple gives a dict, and
      then keeps exactly the codings with a truthy code. */
  lemma {:induction false} CodingsMeaning(xs: seq<Py>)
    ensures Codings(xs).Ok? <==> forall i :: 0 <= i < |xs| ==> TupleToCode(xs[i]).Ok? && TupleToCode(xs[i]).value.PyDict?
    ensures Codings(xs).Ok? ==> forall c :: c in Codings(xs).value ==> HasCode(c)
    ensures Codings(xs).Ok? ==> forall i :: 0 <= i < |xs| && HasCode(TupleToCode(xs[i]).value) ==> TupleToCode(xs[i]).value in Codings(xs).value
    ensures Codings(xs).Ok? ==> |Codings(xs).value| <= |xs|
  {
    if xs != [] {
      CodingsMeaning(xs[1..]);
      assert forall i :: 1 <= i < |xs| ==> xs[i] == xs[1..][i - 1];
    }
  }

  /** The comprehension over a list of one tuple keeps its coding exactly
      when the code is truthy. */
  lemma CodingsOne(x: Py)
    ensures Codings([x]) == Kept(x)
    ensures Codings([x]).Ok? ==> Codings([x]).value == if HasCode(TupleToCode(x).value) then [TupleToCode(x).value] else []
  {
    assert [x][1..] == [];
    if Kept(x).Ok? {
      assert Kept(x).value + [] == Kept(x).value;
    }
  }

  /** The comprehension over two lists one after the other keeps the
      codings of the first, in order, then those of the second; it raises
      what the first raising tuple raises. */
  lemma {:induction false} CodingsAppend(xs: seq<Py>, ys: seq<Py>)
    ensures Codings(xs).Err? ==> Codings(xs + ys) == Codings(xs)
    ensures Codings(xs).Ok? && Codings(ys).Err? ==> Codings(xs + ys) == Codings(ys)
    ensures Codings(xs).Ok? && Codings(ys).Ok? ==> Codings(xs + ys) == Ok(Codings(xs).value + Codings(ys).value)
    decreases |xs|
  {
    if xs == [] {
      assert xs + ys == ys;
      if Codings(ys).Ok? {
        assert [] + Codings(ys).value == Codings(ys).value;
      }
    } else {
      var zs := xs + ys;
      assert zs[0] == xs[0] && zs[1..] == xs[1..] + ys;
      CodingsAppend(xs[1..], ys);
      ConsAppend(Kept(xs[0]), Codings(xs[1..]), Codings(ys), Codings(zs[1..]));
    }
  }

  /** Prepending what one tuple keeps to the outcome for a list and to the
      outcome for that list followed by more. */
  lemma ConsAppend(k: Result<seq<Py>>, a: Result<seq<Py>>, b: Result<seq<Py>>, ab: Result<seq<Py>>)
    requires a.Err? ==> ab == a
    requires a.Ok? && b.Err? ==> ab == b
    requires a.Ok? && b.Ok? ==> ab == Ok(a.value + b.value)
    ensures var ka := (var h :- k; var rest :- a; Ok(h + rest));
      var kab := (var h :- k; var rest :- ab; Ok(h + rest));
      && (ka.Err? ==> kab == ka)
      && (ka.Ok? && b.Err? ==> kab == b)
      && (ka.Ok? && b.Ok? ==> kab == Ok(ka.value + b.value))
  {
    if k.Ok? && a.Ok? && b.Ok? {
      assert k.value + (a.value + b.value) == (k.value + a.value) + b.value;
    }
  }

  /** to_codeable_concept(x): a list is a list of code tuples, anything else
      is one code tuple. */
  function ToCodeableConcept(x: Py): Result<Py> {
    var cs :- Codings(if x.PyList? then x.items else [x]);
    Ok(PyDict([Entry("coding", PyList(cs))]))
  }

  /** The codeable concept lists, in their order, the codings of the input
      that have a truthy code; it fails when a tuple does not unpack or all
      of its parts are falsy. A value that is not a list counts as a list of
      one tuple. */
  lemma CodeableConceptMeaning(x: Py)
    ensures !x.PyList? ==> ToCodeableConcept(x) == ToCodeableConcept(PyList([x]))
    ensures ToCodeableConcept(x).Ok? <==> Codings(if x.PyList? then x.items else [x]).Ok?
    ensures ToCodeableConcept(x).Ok? ==>
      var xs := if x.PyList? then x.items else [x];
      && (forall i :: 0 <= i < |xs| ==> TupleToCode(xs[i]).Ok? && TupleToCode(xs[i]).value.PyDict?)
      && ToCodeableConcept(x).value == PyDict([Entry("coding", PyList(Codings(xs).value))])
      && (forall c :: c in Codings(xs).value ==> HasCode(c))
      && (forall i :: 0 <= i < |xs| && HasCode(TupleToCode(xs[i]).value) ==> TupleToCode(xs[i]).value in Codings(xs).value)
  {
    CodingsMeaning(if x.PyList? then x.items else [x]);
    CodingsMeaning([x]);
  }

  /** The fields of a quantity, in the order to_quantity sets them. */
  const QuantityKeys: seq<string> := ["value", "comparator", "unit", "system", "code"]

  /** to_quantity(x): x unpacks to (value, comparator, unit, system, code),
      and each field is set when its part is truthy. */
  function ToQuantity(x: Py): Result<Py> {
    var f :- Unpack(x, 5);
    Ok(PyDict(SetEach([], QuantityKeys, f)))
  }

  /** The quantity holds exactly its truthy parts, in the order value,
      comparator, unit, system, code; 0 is dropped like None. */
  lemma QuantityMeaning(x: Py)
    ensures ToQuantity(x).Ok? <==> Unpack(x, 5).Ok?
    ensures ToQuantity(x).Ok? ==>
      var f := Unpack(x, 5).value;
      && ToQuantity(x).value == PyDict(Filled(QuantityKeys, f))
      && forall i :: 0 <= i < 5 ==>
           Get(ToQuantity(x).value.entries, QuantityKeys[i]) == if Truthy(f[i]) then Some(f[i]) else None
  {
    if Unpack(x, 5).Ok? {
      var f := Unpack(x, 5).value;
      SetEachFresh([], QuantityKeys, f);
      assert [] + Filled(QuantityKeys, f) == Filled(QuantityKeys, f);
      forall i | 0 <= i < 5 {
        FilledGet(QuantityKeys, f, i);
      }
    }
  }

  /** to_simple_quantity(x): x unpacks to (value, unit, system, code), and
      the quantity is built with a None comparator. */
  function ToSimpleQuantity(x: Py): Result<Py> {
    var f :- Unpack(x, 4);
    ToQuantity(PyTuple([f[0], PyNone, f[1], f[2], f[3]]))
  }

  /** A simple quantity is the quantity of the same parts with no
      comparator: it holds exactly the truthy parts among value, unit,
      system and code. */
  lemma SimpleQuantityMeaning(x: Py)
    ensures ToSimpleQuantity(x).Ok? <==> Unpack(x, 4).Ok?
    ensures ToSimpleQuantity(x).Ok? ==>
      var f := Unpack(x, 4).value;
      && ToSimpleQuantity(x) == ToQuantity(PyTuple([f[0], PyNone, f[1], f[2], f[3]]))
      && Get(ToSimpleQuantity(x).value.entries, "comparator") == None
      && Get(ToSimpleQuantity(x).value.entries, "value") == (if Truthy(f[0]) then Some(f[0]) else None)
      && Get(ToSimpleQuantity(x).value.entries, "unit") == (if Truthy(f[1]) then Some(f[1]) else None)
      && Get(ToSimpleQuantity(x).value.entries, "system") == (if Truthy(f[2]) then Some(f[2]) else None)
      && Get(ToSimpleQuantity(x).value.entries, "code") == (if Truthy(f[3]) then Some(f[3]) else None)
  {
    if Unpack(x, 4).Ok? {
      var f := Unpack(x, 4).value;
      var t := PyTuple([f[0], PyNone, f[1], f[2], f[3]]);
      QuantityMeaning(t);
      assert QuantityKeys[0] == "value" && QuantityKeys[1] == "comparator" && QuantityKeys[2] == "unit";
      assert QuantityKeys[3] == "system" && QuantityKeys[4] == "code";
    }
  }

  /** if v0: d[k0] = c0, then if v1: d[k1] = c1, on an empty dict d, where
      c0 and c1 are what the conversions of v0 and v1 give (and raise). */
  function TwoFields(k0: string, v0: Py, c0: Result<Py>, k1: string, v1: Py, c1: Result<Py>): Result<seq<Entry>> {
    var d :- if Truthy(v0) then var c :- c0; Ok([Entry(k0, c)]) else Ok([]);
    if Truthy(v1) then var c :- c1; Ok(Set(d, k1, c)) else Ok(d)
  }

  /** The two fields go in, in order, exactly when their values are truthy;
      it fails exactly when the conversion of a truthy value fails. */
  lemma TwoFieldsMeaning(k0: string, v0: Py, c0: Result<Py>, k1: string, v1: Py, c1: Result<Py>)
    requires k0 != k1
    ensures TwoFields(k0, v0, c0, k1, v1, c1).Ok? <==> (Truthy(v0) ==> c0.Ok?) && (Truthy(v1) ==> c1.Ok?)
    ensures TwoFields(k0, v0, c0, k1, v1, c1).Ok? ==>
      TwoFields(k0, v0, c0, k1, v1, c1).value
        == (if Truthy(v0) then [Entry(k0, c0.value)] else []) + (if Truthy(v1) then [Entry(k1, c1.value)] else [])
  {
    if Truthy(v0) && c0.Ok? && Truthy(v1) && c1.Ok? {
      SetFresh([Entry(k0, c0.value)], k1, c1.value);
    }
  }

  /** to_range(x): x unpacks to (low, high), each a simple quantity tuple. */
  function ToRange(x: Py): Result<Py> {
    var f :- Unpack(x, 2);
    var r :- TwoFields("low", f[0], ToSimpleQuantity(f[0]), "high", f[1], ToSimpleQuantity(f[1]));
    Ok(PyDict(r))
  }

  /** The range has low and high exactly when those parts are truthy, each
      built by to_simple_quantity. */
  lemma RangeMeaning(x: Py)
    ensures ToRange(x).Ok? <==>
      && Unpack(x, 2).Ok?
      && (Truthy(Unpack(x, 2).value[0]) ==> ToSimpleQuantity(Unpack(x, 2).value[0]).Ok?)
      && (Truthy(Unpack(x, 2).value[1]) ==> ToSimpleQuantity(Unpack(x, 2).value[1]).Ok?)
    ensures ToRange(x).Ok? ==>
      var f := Unpack(x, 2).value;
      ToRange(x).value == PyDict(
        (if Truthy(f[0]) then [Entry("low", ToSimpleQuantity(f[0]).value)] else [])
        + (if Truthy(f[1]) then [Entry("high", ToSimpleQuantity(f[1]).value)] else []))
  {
    if Unpack(x, 2).Ok? {
      var f := Unpack(x, 2).value;
      TwoFieldsMeaning("low", f[0], ToSimpleQuantity(f[0]), "high", f[1], ToSimpleQuantity(f[1]));
    }
  }

  /** to_ratio(x): x unpacks to (numerator, denominator), each a quantity
      tuple. */
  function ToRatio(x: Py): Result<Py> {
    var f :- Unpack(x, 2);
    var r :- TwoFields("numerator", f[0], ToQuantity(f[0]), "denominator", f[1], ToQuantity(f[1]));
    Ok(PyDict(r))
  }

  /** The ratio has numerator and denominator exactly when those parts are
      truthy, each built by to_quantity. */
  lemma RatioMeaning(x: Py)
    ensures ToRatio(x).Ok? <==>
      && Unpack(x, 2).Ok?
      && (Truthy(Unpack(x, 2).value[0]) ==> ToQuantity(Unpack(x, 2).value[0]).Ok?)
      && (Truthy(Unpack(x, 2).value[1]) ==> ToQuantity(Unpack(x, 2).value[1]).Ok?)
    ensures ToRatio(x).Ok? ==>
      var f := Unpack(x, 2).value;
      ToRatio(x).value == PyDict(
        (if Truthy(f[0]) then [Entry("numerator", ToQuantity(f[0]).value)] else [])
        + (if Truthy(f[1]) then [Entry("denominator", ToQuantity(f[1]).value)] else []))
  {
    if Unpack(x, 2).Ok? {
      var f := Unpack(x, 2).value;
      TwoFieldsMeaning("numerator", f[0], ToQuantity(f[0]), "denominator", f[1], ToQuantity(f[1]));
    }
  }

  /** to_timing(x): x unpacks to (event, code); the event is kept as it is,
      the code becomes a codeable concept. */
  function ToTiming(x: Py): Result<Py> {
    var f :- Unpack(x, 2);
    var t :- TwoFields("event", f[0], Ok(f[0]), "code", f[1], ToCodeableConcept(f[1]));
    Ok(PyDict(t))
  }

  /** The timing has an event exactly when the event is truthy and a code
      exactly when the code is truthy; a falsy code is left out. */
  lemma TimingMeaning(x: Py)
    ensures ToTiming(x).Ok? <==>
      Unpack(x, 2).Ok? && (Truthy(Unpack(x, 2).value[1]) ==> ToCodeableConcept(Unpack(x, 2).value[1]).Ok?)
    ensures ToTiming(x).Ok? ==>
      var f := Unpack(x, 2).value;
      ToTiming(x).value == PyDict(IfTruthy("event", f[0])
        + (if Truthy(f[1]) then [Entry("code", ToCodeableConcept(f[1]).value)] else []))
  {
    if Unpack(x, 2).Ok? {
      var f := Unpack(x, 2).value;
      TwoFieldsMeaning("event", f[0], Ok(f[0]), "code", f[1], ToCodeableConcept(f[1]));
    }
  }
}
