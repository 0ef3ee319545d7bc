/** Python values as the FHIR builders see them: the fields of a petl record
    and the dicts and lists the builders return. */
module PyValues {
  import opened Outcomes

  datatype Py =
    | PyNone
    | PyBool(b: bool)
    | PyInt(i: int)
    | PyFloat(r: real)
    | PyStr(s: string)
    | PyDate(iso: string)           // a date or a FormattedDateTime, by what its isoformat() returns
    | PyTuple(items: seq<Py>)
    | PyList(items: seq<Py>)
    | PyDict(entries: seq<Entry>)

  /** One key of a dict with its value; a dict lists its entries in insertion
      order. */
  datatype Entry = Entry(key: string, value: Py)

  /** bool(v): None, False, zero and empty containers are falsy; dates are
      always truthy. */
  predicate Truthy(v: Py) {
    match v
    case PyNone => false
    case PyBool(b) => b
    case PyInt(i) => i != 0
    case PyFloat(r) => r != 0.0
    case PyStr(s) => s != []
    case PyDate(_) => true
    case PyTuple(items) => items != []
    case PyList(items) => items != []
    case PyDict(entries) => entries != []
  }

  /** What iterating over x yields: the items of a tuple or list, the
      one-character strings of a str, the keys of a dict. Other values are
      not iterable. */
  function Items(x: Py): (r: Result<seq<Py>>)
    ensures r.Ok? <==> x.PyTuple? || x.PyList? || x.PyStr? || x.PyDict?
    ensures r.Err? ==> r.error == TypeError
    ensures x.PyTuple? || x.PyList? ==> r == Ok(x.items)
    ensures x.PyStr? ==> |r.value| == |x.s|
  {
    match x
    case PyTuple(items) => Ok(items)
    case PyList(items) => Ok(items)
    case PyStr(s) => Ok(seq(|s|, i requires 0 <= i < |s| => PyStr([s[i]])))
    case PyDict(entries) => Ok(seq(|entries|, i requires 0 <= i < |entries| => PyStr(entries[i].key)))
    case _ => Err(TypeError)
  }

  /** a1, ..., an = x: x must iterate to exactly n items. */
  function Unpack(x: Py, n: nat): (r: Result<seq<Py>>)
    ensures r.Ok? <==> Items(x).Ok? && |Items(x).value| == n
    ensures r.Ok? ==> r.value == Items(x).value
    ensures Items(x).Ok? && |Items(x).value| != n ==> r == Err(ValueError(""))
    ensures Items(x).Err? ==> r == Err(TypeError)
  {
    var items :- Items(x);
    if |items| == n then Ok(items) else Err(ValueError(""))
  }

  /** The keys of a dict, in insertion order. */
  function Keys(d: seq<Entry>): (r: seq<string>)
    ensures |r| == |d|
  {
    if d == [] then [] else [d[0].key] + Keys(d[1..])
  }

  /** d.get(k): the value of the entry with key k. */
  function Get(d: seq<Entry>, k: string): Option<Py> {
    if d == [] then None
    else if d[0].key == k then Some(d[0].value)
    else Get(d[1..], k)
  }

  /** A dict holds exactly the keys it lists. */
  lemma {:induction false} GetKeys(d: seq<Entry>, k: string)
    ensures Get(d, k).Some? <==> k in Keys(d)
  {
    if d != [] {
      GetKeys(d[1..], k);
    }
  }

  /** Every key is listed once, as in every dict. */
  predicate Unique(d: seq<Entry>) {
    d == [] || (d[0].key !in Keys(d[1..]) && Unique(d[1..]))
  }

  /** d[k] = v: an existing key keeps its place, a new key goes last. */
  function Set(d: seq<Entry>, k: string, v: Py): (r: seq<Entry>)
    ensures Get(r, k) == Some(v)
    ensures forall k' :: k' != k ==> Get(r, k') == Get(d, k')
    ensures Keys(r) == if k in Keys(d) then Keys(d) else Keys(d) + [k]
    ensures Unique(d) ==> Unique(r)
  {
    if d == [] then [Entry(k, v)]
    else if d[0].key == k then [Entry(k, v)] + d[1..]
    else [d[0]] + Set(d[1..], k, v)
  }

  /** Setting a key the dict lacks appends it. */
  lemma {:induction false} SetFresh(d: seq<Entry>, k: string, v: Py)
    requires Get(d, k) == None
    ensures Set(d, k, v) == d + [Entry(k, v)]
  {
    if d != [] {
      SetFresh(d[1..], k, v);
      assert [d[0]] + (d[1..] + [Entry(k, v)]) == d + [Entry(k, v)];
    }
  }

  /** if v: d[k] = v */
  function SetIf(d: seq<Entry>, k: string, v: Py): seq<Entry> {
    if Truthy(v) then Set(d, k, v) else d
  }

  /** The one entry k: v when v is truthy, else nothing. */
  function IfTruthy(k: string, v: Py): seq<Entry> {
    if Truthy(v) then [Entry(k, v)] else []
  }

  lemma SetIfFresh(d: seq<Entry>, k: string, v: Py)
    requires Get(d, k) == None
    ensures SetIf(d, k, v) == d + IfTruthy(k, v)
  {
    if Truthy(v) {
      SetFresh(d, k, v);
    }
  }

  /** Every key listed once. */
  predicate Distinct(keys: seq<string>) {
    forall i, j :: 0 <= i < j < |keys| ==> KeyAt(keys, i) != KeyAt(keys, j)
  }

  /** keys[i], named so that distinctness is used only where a proof asks. */
  function KeyAt(keys: seq<string>, i: nat): string
    requires i < |keys|
  {
    keys[i]
  }

  lemma DistinctTail(keys: seq<string>)
    requires keys != [] && Distinct(keys)
    ensures keys[0] !in keys[1..] && Distinct(keys[1..])
  {
    forall j | 0 <= j < |keys| - 1
      ensures keys[1..][j] != keys[0]
    {
      assert KeyAt(keys, 0) != KeyAt(keys, j + 1);
    }
    forall i, j | 0 <= i < j < |keys| - 1
      ensures KeyAt(keys[1..], i) != KeyAt(keys[1..], j)
    {
      assert KeyAt(keys, i + 1) != KeyAt(keys, j + 1);
    }
  }

  /** The entries keys[i]: values[i] whose value is truthy, in order. */
  function Filled(keys: seq<string>, values: seq<Py>): seq<Entry>
    requires |keys| == |values|
  {
    if keys == [] then [] else IfTruthy(keys[0], values[0]) + Filled(keys[1..], values[1..])
  }

  /** for k, v in zip(keys, values): if v: d[k] = v */
  function SetEach(d: seq<Entry>, keys: seq<string>, values: seq<Py>): seq<Entry>
    requires |keys| == |values|
    decreases |keys|
  {
    if keys == [] then d else SetEach(SetIf(d, keys[0], values[0]), keys[1..], values[1..])
  }

  /** Only the listed keys are filled. */
  lemma {:induction false} FilledOther(keys: seq<string>, values: seq<Py>, k: string)
    requires |keys| == |values|
    requires k !in keys
    ensures Get(Filled(keys, values), k) == None
  {
    if keys != [] {
      FilledOther(keys[1..], values[1..], k);
      GetAppend(IfTruthy(keys[0], values[0]), Filled(keys[1..], values[1..]), k);
    }
  }

  /** A listed key is filled exactly when its value is truthy. */
  lemma {:induction false} FilledGet(keys: seq<string>, values: seq<Py>, i: nat)
    requires |keys| == |values| && Distinct(keys)
    requires i < |keys|
    ensures Get(Filled(keys, values), keys[i]) == if Truthy(values[i]) then Some(values[i]) else None
  {
    var head := IfTruthy(keys[0], values[0]);
    DistinctTail(keys);
    GetAppend(head, Filled(keys[1..], values[1..]), keys[i]);
    if i == 0 {
      FilledOther(keys[1..], values[1..], keys[0]);
    } else {
      assert keys[i] == keys[1..][i - 1];
      FilledGet(keys[1..], values[1..], i - 1);
    }
  }

  lemma AppendAssoc<T>(a: seq<T>, b: seq<T>, c: seq<T>)
    ensures a + b + c == a + (b + c)
  {
  }

  /** One step of SetEach on a key the dict lacks: the entry is appended
      when truthy, and the keys still to come stay missing. */
  lemma SetIfStep(d: seq<Entry>, k: string, v: Py, later: seq<string>)
    requires Get(d, k) == None
    requires forall k' :: k' in later ==> Get(d, k') == None && k' != k
    ensures SetIf(d, k, v) == d + IfTruthy(k, v)
    ensures forall k' :: k' in later ==> Get(d + IfTruthy(k, v), k') == None
  {
    SetIfFresh(d, k, v);
    forall k' | k' in later
      ensures Get(d + IfTruthy(k, v), k') == None
    {
      GetAppend(d, IfTruthy(k, v), k');
    }
  }

  /** Setting the truthy values of distinct keys that a dict lacks appends
      those entries in order. */
  lemma {:induction false} SetEachFresh(d: seq<Entry>, keys: seq<string>, values: seq<Py>)
    requires |keys| == |values| && Distinct(keys)
    requires forall k :: k in keys ==> Get(d, k) == None
    ensures SetEach(d, keys, values) == d + Filled(keys, values)
    decreases |keys|
  {
    if keys != [] {
      var k, v, later := keys[0], values[0], keys[1..];
      var head := IfTruthy(k, v);
      DistinctTail(keys);
      assert forall k' :: k' in later ==> k' in keys;
      SetIfStep(d, k, v, later);
      SetEachFresh(d + head, later, values[1..]);
      AppendAssoc(d, head, Filled(later, values[1..]));
    }
  }

  /** A key missing from both halves is missing from their concatenation. */
  lemma {:induction false} GetAppend(a: seq<Entry>, b: seq<Entry>, k: string)
    ensures Get(a + b, k) == if Get(a, k).Some? then Get(a, k) else Get(b, k)
  {
    if a != [] {
      assert (a + b)[0] == a[0] && (a + b)[1..] == a[1..] + b;
      GetAppend(a[1..], b, k);
    } else {
      assert a + b == b;
    }
  }

  /** d.pop(k) on a dict that holds k: the entry goes, the others keep their
      values and order. */
  function Pop(d: seq<Entry>, k: string): (r: seq<Entry>)
    ensures forall k' :: k' != k ==> Get(r, k') == Get(d, k')
    ensures Unique(d) ==> Get(r, k) == None && Unique(r)
    ensures forall k' :: k' in Keys(r) ==> k' in Keys(d)
  {
    if d == [] then []
    else if d[0].key == k then GetKeys(d[1..], k); d[1..]
    else [d[0]] + Pop(d[1..], k)
  }

  /** d.update(other): every entry of other set in d, in other's order. */
  function Update(d: seq<Entry>, other: seq<Entry>): (r: seq<Entry>)
    ensures Unique(other) ==> forall k :: Get(r, k) == if Get(other, k).Some? then Get(other, k) else Get(d, k)
    ensures Unique(d) ==> Unique(r)
    decreases |other|
  {
    if other == [] then d
    else
      GetKeys(other[1..], other[0].key);
      Update(Set(d, other[0].key, other[0].value), other[1..])
  }

  /** The values whose str() the model spells out. */
  predicate Printable(v: Py) {
    v.PyNone? || v.PyBool? || v.PyInt? || v.PyStr? || v.PyDate?
  }

  function Digit(n: nat): char
    requires n < 10
  {
    "0123456789"[n]
  }

  /** The decimal digits of n, without leading zeros. */
  function Decimal(n: nat): (r: string)
    ensures |r| > 0
    ensures forall i :: 0 <= i < |r| ==> '0' <= r[i] <= '9'
  {
    if n < 10 then [Digit(n)] else Decimal(n / 10) + [Digit(n % 10)]
  }

  /** str(v); str() of a date is its isoformat(). */
  function Str(v: Py): string
    requires Printable(v)
  {
    match v
    case PyNone => "None"
    case PyBool(b) => if b then "True" else "False"
    case PyInt(i) => if i < 0 then "-" + Decimal(-i) else Decimal(i)
    case PyStr(s) => s
    case PyDate(iso) => iso
  }
}
