/** Python's dict with string keys: a mapping that remembers the order in
    which its keys were first inserted. */
module Dicts {

  ghost predicate Distinct(s: seq<string>) {
    forall i, j :: 0 <= i < j < |s| ==> s[i] != s[j]
  }

  datatype Dict<V> = Dict(keys: seq<string>, vals: map<string, V>)

  /** The keys are listed once each, in insertion order, and are exactly the
      keys of the mapping. */
  ghost predicate Valid<V>(d: Dict<V>) {
    Distinct(d.keys) && forall k :: k in d.vals <==> k in d.keys
  }

  type ODict<V> = d: Dict<V> | Valid(d) witness Dict([], map[])

  function Empty<V>(): (r: ODict<V>)
    ensures r.keys == [] && r.vals == map[]
  {
    Dict([], map[])
  }

  /** d[k] = v: an existing key keeps its place, a new key goes last. */
  function Put<V>(d: ODict<V>, k: string, v: V): (r: ODict<V>)
    ensures r.vals == d.vals[k := v]
    ensures r.keys == if k in d.vals then d.keys else d.keys + [k]
  {
    if k in d.vals then Dict(d.keys, d.vals[k := v]) else Dict(d.keys + [k], d.vals[k := v])
  }

  /** The elements of s that are not in drop, in their order. */
  function FilterOut(s: seq<string>, drop: set<string>): (r: seq<string>)
    ensures forall x :: x in r <==> x in s && x !in drop
    ensures Distinct(s) ==> Distinct(r)
    ensures |r| <= |s|
  {
    if s == [] then []
    else
      var rest := FilterOut(s[1..], drop);
      assert Distinct(s) ==> s[0] !in s[1..];
      (if s[0] in drop then [] else [s[0]]) + rest
  }

  lemma {:induction false} FilterOutNothing(s: seq<string>, drop: set<string>)
    requires forall x :: x in s ==> x !in drop
    ensures FilterOut(s, drop) == s
  {
    if s != [] {
      FilterOutNothing(s[1..], drop);
    }
  }

  lemma {:induction false} FilterOutTwice(s: seq<string>, a: set<string>, b: set<string>)
    ensures FilterOut(FilterOut(s, a), b) == FilterOut(s, a + b)
  {
    if s != [] {
      FilterOutTwice(s[1..], a, b);
      var rest := FilterOut(s[1..], a);
      if s[0] in a {
        assert FilterOut(s, a) == rest;
      } else {
        var t := [s[0]] + rest;
        assert FilterOut(s, a) == t;
        assert t[1..] == rest;
        assert FilterOut(t, b) == (if s[0] in b then [] else [s[0]]) + FilterOut(rest, b);
      }
    }
  }

  lemma {:induction false} FilterOutSnoc(s: seq<string>, x: string, drop: set<string>)
    ensures FilterOut(s + [x], drop) == FilterOut(s, drop) + (if x in drop then [] else [x])
    decreases |s|
  {
    var t := s + [x];
    if s == [] {
      assert t[1..] == [];
    } else {
      assert t[0] == s[0];
      assert t[1..] == s[1..] + [x];
      FilterOutSnoc(s[1..], x, drop);
    }
  }

  /** Removing keys that s does not contain changes nothing. */
  lemma {:induction false} FilterOutIrrelevant(s: seq<string>, a: set<string>, x: string)
    requires x !in s
    ensures FilterOut(s, a + {x}) == FilterOut(s, a)
  {
    if s != [] {
      FilterOutIrrelevant(s[1..], a, x);
    }
  }

  /** d.pop(k, None): k is gone, every other key keeps its value and place. */
  function Pop<V>(d: ODict<V>, k: string): (r: ODict<V>)
    ensures r.vals == d.vals - {k}
    ensures r.keys == FilterOut(d.keys, {k})
  {
    Dict(FilterOut(d.keys, {k}), d.vals - {k})
  }

  /** d without all of the keys in ks. */
  function RemoveKeys<V>(d: ODict<V>, ks: set<string>): (r: ODict<V>)
    ensures r.vals == d.vals - ks
    ensures r.keys == FilterOut(d.keys, ks)
  {
    Dict(FilterOut(d.keys, ks), d.vals - ks)
  }

  /** list(d.values()). */
  function Values<V>(d: ODict<V>): (r: seq<V>)
    ensures |r| == |d.keys|
    ensures forall i :: 0 <= i < |d.keys| ==> r[i] == d.vals[d.keys[i]]
  {
    seq(|d.keys|, i requires 0 <= i < |d.keys| => d.vals[d.keys[i]])
  }

  /** {**d1, **d2}: the keys of d1 in their order, then the keys of d2 that
      d1 lacks in theirs; where both have a key, d2's value. */
  function Union<V>(d1: ODict<V>, d2: ODict<V>): (r: ODict<V>)
    ensures r.vals == d1.vals + d2.vals
    ensures r.keys == d1.keys + FilterOut(d2.keys, d1.vals.Keys)
  {
    var added := FilterOut(d2.keys, d1.vals.Keys);
    var ks := d1.keys + added;
    assert forall i, j :: 0 <= i < |d1.keys| <= j < |ks| ==> ks[i] in d1.vals && ks[j] == added[j - |d1.keys|];
    Dict(ks, d1.vals + d2.vals)
  }
}
