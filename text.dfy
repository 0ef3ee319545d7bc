/** The few operations on Python str values that the modelled code uses. */
module Text {

  /** str.isspace() for one character: the characters str.strip() removes. */
  predicate IsSpace(c: char) {
    || c == ' '
    || '\t' <= c <= '\r'
    || '\U{1c}' <= c <= '\U{1f}'
    || c == '\U{85}' || c == '\U{a0}' || c == '\U{1680}'
    || '\U{2000}' <= c <= '\U{200a}'
    || c == '\U{2028}' || c == '\U{2029}' || c == '\U{202f}' || c == '\U{205f}' || c == '\U{3000}'
  }

  predicate IsBlank(c: char) {
    c == ' '
  }

  /** The number of leading drop-characters of s. */
  function StartCut(s: string, drop: char -> bool): (i: nat)
    ensures i <= |s|
    ensures forall k :: 0 <= k < i ==> drop(s[k])
    ensures i == |s| || !drop(s[i])
  {
    if |s| > 0 && drop(s[0]) then 1 + StartCut(s[1..], drop) else 0
  }

  /** The length of s without its trailing drop-characters. */
  function EndCut(s: string, drop: char -> bool): (j: nat)
    ensures j <= |s|
    ensures forall k :: j <= k < |s| ==> drop(s[k])
    ensures j == 0 || !drop(s[j - 1])
  {
    if |s| > 0 && drop(s[|s| - 1]) then EndCut(s[..|s| - 1], drop) else |s|
  }

  /** lstrip followed by rstrip, for the characters drop names. */
  function StripWith(s: string, drop: char -> bool): string {
    var t := s[StartCut(s, drop)..];
    t[..EndCut(t, drop)]
  }

  /** str.strip(): s without whitespace at either end. */
  function Strip(s: string): string {
    StripWith(s, IsSpace)
  }

  /** str.strip(" "): s without spaces at either end. */
  function StripBlanks(s: string): string {
    StripWith(s, IsBlank)
  }

  /** t is s with the drop-characters cut from both ends: a slice of s
      that is empty or starts and ends with a kept character, with only
      drop-characters before and after it. */
  ghost predicate StrippedTo(s: string, t: string, drop: char -> bool) {
    && (exists i, j ::
      && 0 <= i <= j <= |s| && t == s[i..j]
      && (forall k :: 0 <= k < i ==> drop(s[k]))
      && (forall k :: j <= k < |s| ==> drop(s[k])))
    && (t == [] || (!drop(t[0]) && !drop(t[|t| - 1])))
  }

  lemma StripWithIsSlice(s: string, drop: char -> bool)
    ensures StrippedTo(s, StripWith(s, drop), drop)
  {
    var i := StartCut(s, drop);
    var t := s[i..];
    var j := EndCut(t, drop);
    assert StripWith(s, drop) == s[i..i + j];
    assert forall k :: i + j <= k < |s| ==> s[k] == t[k - i];
  }

  /** What strip() leaves is a slice of the input that is empty or starts
      and ends with a character strip keeps, and all it cuts off is
      whitespace. */
  lemma StripIsSlice(s: string)
    ensures StrippedTo(s, Strip(s), IsSpace)
  {
    StripWithIsSlice(s, IsSpace);
  }

  /** strip(" ") cuts exactly the spaces at both ends, and no other
      whitespace. */
  lemma StripBlanksIsSlice(s: string)
    ensures StrippedTo(s, StripBlanks(s), IsBlank)
  {
    StripWithIsSlice(s, IsBlank);
  }

  /** s[1:]: Python slicing never fails, so the tail of "" is "". */
  function Tail(s: string): (r: string)
    ensures |s| > 0 ==> r == s[1..]
    ensures |s| == 0 ==> r == ""
  {
    if |s| == 0 then "" else s[1..]
  }

  /** a < b on str: lexicographic order of code points, a proper prefix first. */
  predicate Less(a: string, b: string) {
    if |a| == 0 then |b| > 0
    else if |b| == 0 then false
    else if a[0] != b[0] then a[0] < b[0]
    else Less(a[1..], b[1..])
  }

  /** Of two different strings exactly one is less than the other. */
  lemma {:induction false} LessTotal(a: string, b: string)
    requires a != b
    ensures Less(a, b) != Less(b, a)
  {
    if |a| > 0 && |b| > 0 && a[0] == b[0] {
      assert a == [a[0]] + a[1..] && b == [b[0]] + b[1..];
      LessTotal(a[1..], b[1..]);
    }
  }

  lemma {:induction false} LessIrreflexive(a: string)
    ensures !Less(a, a)
  {
    if |a| > 0 {
      LessIrreflexive(a[1..]);
    }
  }
}
